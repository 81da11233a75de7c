/** Source text with everything the lexer steps over: what comments, executable comments and dollar quotes are, said of the
    text alone, and that the lexer reads exactly them. */
module Source {
  import opened Prelude
  import opened Bytes
  import opened Lexer
  import opened Window
  import opened Suffix
  import opened Render

  /** The inside of a block comment, cut at the comments within it. */
  datatype Part = Text(text: string) | Open | Close

  datatype Item =
    | Plain(x: Lexeme)
    | White(white: string)
    | Bare(name: string)
    | Sharp
    | LineComment(sharp: bool, text: string)
    | BlockComment(parts: seq<Part>)
    | Dollar(tag: string, body: string)
    | Marker(digits: string)
    | MarkerEnd

  function PartText(p: Part): string {
    match p
    case Text(text) => text
    case Open => "/*"
    case Close => "*/"
  }

  function BodyText(parts: seq<Part>): string {
    if parts == [] then "" else PartText(parts[0]) + BodyText(parts[1..])
  }

  function Tagged(tag: string): string {
    "$" + tag + "$"
  }

  function ItemText(x: Item): string {
    match x
    case Plain(x) => Spell(x)
    case White(white) => white
    case Bare(name) => name
    case Sharp => "#"
    case LineComment(sharp, text) => (if sharp then "#" else "--") + text
    case BlockComment(parts) => "/*" + BodyText(parts) + "*/"
    case Dollar(tag, body) => Tagged(tag) + body + Tagged(tag)
    case Marker(digits) => "/*!" + digits
    case MarkerEnd => "*/"
  }

  function SourceText(xs: seq<Item>): string {
    if xs == [] then "" else ItemText(xs[0]) + SourceText(xs[1..])
  }

  // ------------------------------------------------------------------
  // When a list is what its text says, by dialect.

  /** No comment ends inside `text`, nor opens there where comments nest, when `rest` follows. */
  predicate Quiet(d: Dialect, text: string, rest: string) {
    forall k :: 0 <= k < |text| && k + 1 < |text + rest| ==>
                  && !((text + rest)[k] == '*' && (text + rest)[k + 1] == '/')
                  && (d != MySQL ==> !((text + rest)[k] == '/' && (text + rest)[k + 1] == '*'))
  }

  /** The parts of a comment that is open `level` deep, up to its own end. MySQL's comments do not nest. */
  predicate Nested(d: Dialect, parts: seq<Part>, level: nat) {
    if parts == [] then level == 1
    else if level == 0 then false
    else
      match parts[0]
      case Text(text) => Quiet(d, text, BodyText(parts[1..]) + "*/") && Nested(d, parts[1..], level)
      case Open => d != MySQL && Nested(d, parts[1..], level + 1)
      case Close => Nested(d, parts[1..], level - 1)
  }

  predicate TagByte(c: char, first: bool) {
    'a' <= c <= 'z' || 'A' <= c <= 'Z' || c == '_' || (!first && '0' <= c <= '9')
  }

  predicate TagBytes(tag: string, first: bool) {
    forall k :: 0 <= k < |tag| ==> TagByte(tag[k], first && k == 0)
  }

  predicate Occurs(text: string, k: nat, word: string) {
    k + |word| <= |text| && text[k..k + |word|] == word
  }

  predicate NoCloser(body: string, closer: string) {
    forall k :: 0 <= k < |body| ==> !Occurs(body + closer, k, closer)
  }

  predicate NameByte(c: char) {
    'a' <= c <= 'z' || 'A' <= c <= 'Z' || '0' <= c <= '9' || c == '_' || c == '$' || c >= '\U{80}'
  }

  /** No tag and its second dollar are read after the dollar in front of `text`. */
  predicate NoTag(text: string, first: bool) {
    forall j :: 0 <= j < |text| && text[j] == '$' ==> !TagBytes(text[..j], first)
  }

  predicate WhiteByte(c: char) {
    c in [' ', '\t', '\n', '\U{B}', '\U{C}', '\r', '\U{85}', '\U{A0}']
  }

  /** The item is read as itself when `rest` follows, with `executable` executable comments open. */
  predicate Reads(d: Dialect, x: Item, rest: string, executable: nat) {
    match x
    case Plain(x) => !x.Gap? && Formed(d, x) && Render.Fits(x, rest) && (executable > 0 && x == Mark('*') && rest != "" ==> rest[0] != '/')
    case White(white) => forall k :: 0 <= k < |white| ==> WhiteByte(white[k])
    case Bare(name) => name != "" && !WhiteByte(name[0]) && (forall k :: 0 <= k < |name| ==> NameByte(name[k])) && (name[0] == '$' ==> NoTag(name[1..], true)) && (rest == "" || !NameByte(rest[0]))
    case Sharp => d == Postgres || d == MSSQL
    case LineComment(sharp, text) => (sharp ==> d == MySQL || d == Generic) && '\n' !in text && (rest == "" || rest[0] == '\n')
    case BlockComment(parts) => Nested(d, parts, 1) && (d == MySQL || d == Generic ==> BodyText(parts) == "" || BodyText(parts)[0] != '!')
    case Dollar(tag, body) => TagBytes(tag, true) && NoCloser(body, Tagged(tag))
    case Marker(digits) => (d == MySQL || d == Generic) && (forall k :: 0 <= k < |digits| ==> '0' <= digits[k] <= '9') && (rest == "" || !('0' <= rest[0] <= '9'))
    case MarkerEnd => executable > 0
  }

  function DepthPast(x: Item, depth: nat): nat {
    if x == Plain(Mark('(')) then depth + 1
    else if x == Plain(Mark(')')) && depth > 0 then depth - 1
    else depth
  }

  function ExecutablePast(x: Item, executable: nat): nat {
    if x.Marker? then executable + 1
    else if x.MarkerEnd? && executable > 0 then executable - 1
    else executable
  }

  predicate AllRead(d: Dialect, xs: seq<Item>, rest: string, depth: nat, executable: nat) {
    xs == []
    || (&& Reads(d, xs[0], SourceText(xs[1..]) + rest, executable)
        && (xs[0] == Plain(Mark(')')) ==> depth > 0)
        && AllRead(d, xs[1..], rest, DepthPast(xs[0], depth), ExecutablePast(xs[0], executable)))
  }

  function DepthAfterAll(xs: seq<Item>, depth: nat): nat {
    if xs == [] then depth else DepthAfterAll(xs[1..], DepthPast(xs[0], depth))
  }

  function ExecutableAfterAll(xs: seq<Item>, executable: nat): nat {
    if xs == [] then executable else ExecutableAfterAll(xs[1..], ExecutablePast(xs[0], executable))
  }

  /** White space, comments and the marks of executable comments are no tokens; a dollar quote is one, like a string,
      and so is a bare word, even one that starts with a dollar. */
  function ItemTokens(x: Item, at: nat, depth: nat): seq<Token> {
    match x
    case Plain(p) => [TokenOf(p, at, if p == Mark(')') then DepthPast(x, depth) else depth)]
    case Bare(name) => [Token(name, ToLower(name), at, at + |name|, depth, true, false)]
    case Sharp => [Token("#", "#", at, at + 1, depth, false, false)]
    case Dollar(_, _) => [Token(ItemText(x), "?", at, at + |ItemText(x)|, depth, false, false)]
    case _ => []
  }

  function SourceTokens(xs: seq<Item>, at: nat, depth: nat): seq<Token> {
    if xs == [] then [] else ItemTokens(xs[0], at, depth) + SourceTokens(xs[1..], at + |ItemText(xs[0])|, DepthPast(xs[0], depth))
  }

  // ------------------------------------------------------------------
  // Where each element ends.

  lemma {:induction false} LineRuns(s: string, i: nat, text: string, rest: string)
    requires i <= |s| && s[i..] == text + rest && '\n' !in text && (rest == "" || rest[0] == '\n')
    ensures LineEnd(s, i) == i + |text|
    decreases |text|
  {
    Prefix(s, i, text, rest);
    if text != "" {
      assert s[i] == text[0];
      Drop(s, i, 1);
      assert s[i + 1..] == text[1..] + rest;
      LineRuns(s, i + 1, text[1..], rest);
    }
  }

  lemma QuietTail(d: Dialect, text: string, rest: string)
    requires text != "" && Quiet(d, text, rest)
    ensures Quiet(d, text[1..], rest)
  {
    assert text + rest == [text[0]] + (text[1..] + rest);
    forall k | 0 <= k < |text| - 1 && k + 1 < |text[1..] + rest|
      ensures && !((text[1..] + rest)[k] == '*' && (text[1..] + rest)[k + 1] == '/')
              && (d != MySQL ==> !((text[1..] + rest)[k] == '/' && (text[1..] + rest)[k + 1] == '*'))
    {
      assert (text + rest)[k + 1] == (text[1..] + rest)[k] && (text + rest)[k + 2] == (text[1..] + rest)[k + 1];
    }
  }

  lemma {:induction false} QuietRuns(d: Dialect, s: string, i: nat, text: string, rest: string, level: nat)
    requires i <= |s| && s[i..] == text + rest && Quiet(d, text, rest) && level > 0
    ensures i + |text| <= |s| && BlockEnd(d, s, i, level) == BlockEnd(d, s, i + |text|, level)
    decreases |text|
  {
    hide Quiet, BlockEnd, Two;
    Prefix(s, i, text, rest);
    if text != "" {
      QuietHere(d, s, i, text, rest);
      QuietStep(d, s, i, level);
      QuietTail(d, text, rest);
      Drop(s, i, 1);
      assert s[i + 1..] == text[1..] + rest;
      QuietRuns(d, s, i + 1, text[1..], rest, level);
    }
  }

  lemma QuietStep(d: Dialect, s: string, i: nat, level: nat)
    requires i < |s| && level > 0 && !Two(s, i, '*', '/') && !(Two(s, i, '/', '*') && NestsComments(d))
    ensures BlockEnd(d, s, i, level) == BlockEnd(d, s, i + 1, level)
  {
    hide Two;
  }

  lemma QuietHere(d: Dialect, s: string, i: nat, text: string, rest: string)
    requires i < |s| && s[i..] == text + rest && text != "" && Quiet(d, text, rest)
    ensures !Two(s, i, '*', '/') && !(Two(s, i, '/', '*') && NestsComments(d))
  {
    assert s[i] == (text + rest)[0];
    if i + 1 < |s| {
      assert s[i + 1] == (text + rest)[1];
    }
  }

  lemma PairAt(s: string, i: nat, pair: string, rest: string)
    requires i <= |s| && s[i..] == pair + rest && |pair| == 2
    ensures i + 2 <= |s| && s[i + 2..] == rest && Two(s, i, pair[0], pair[1])
  {
    Prefix(s, i, pair, rest);
    assert s[i + 0] == pair[0] && s[i + 1] == pair[1];
  }

  lemma {:induction false} BlockRuns(d: Dialect, s: string, i: nat, parts: seq<Part>, level: nat, rest: string)
    requires i <= |s| && s[i..] == BodyText(parts) + "*/" + rest && Nested(d, parts, level)
    ensures BlockEnd(d, s, i, level) == Some(i + |BodyText(parts)| + 2)
    decreases |parts|
  {
    hide *;
    BodySplits(parts, rest);
    if parts == [] {
      BodyEnds(d, s, i, level, rest);
    } else {
      var next := BodyText(parts[1..]) + "*/";
      Prefix(s, i, PartText(parts[0]), next + rest);
      NestedStep(d, parts, level);
      PartRuns(d, s, i, parts[0], next, rest, level);
      BlockRuns(d, s, i + |PartText(parts[0])|, parts[1..], LevelPast(parts[0], level), rest);
    }
  }

  lemma BodySplits(parts: seq<Part>, rest: string)
    ensures parts == [] ==> BodyText(parts) == "" && BodyText(parts) + "*/" + rest == "*/" + rest
    ensures parts != [] ==>
              && BodyText(parts) == PartText(parts[0]) + BodyText(parts[1..])
              && BodyText(parts) + "*/" + rest == PartText(parts[0]) + (BodyText(parts[1..]) + "*/" + rest)
  {
    hide PartText;
  }

  lemma BodyEnds(d: Dialect, s: string, i: nat, level: nat, rest: string)
    requires i <= |s| && s[i..] == "*/" + rest && Nested(d, [], level)
    ensures BlockEnd(d, s, i, level) == Some(i + 2)
  {
    PairAt(s, i, "*/", rest);
    assert BlockEnd(d, s, i + 2, 0) == Some(i + 2);
  }

  lemma NestedStep(d: Dialect, parts: seq<Part>, level: nat)
    requires parts != [] && Nested(d, parts, level)
    ensures level > 0 && Nested(d, parts[1..], LevelPast(parts[0], level))
    ensures parts[0].Text? ==> Quiet(d, parts[0].text, BodyText(parts[1..]) + "*/")
    ensures parts[0].Open? ==> d != MySQL
  {
    hide Quiet, BodyText;
  }

  function LevelPast(p: Part, level: nat): nat {
    if p.Open? then level + 1 else if p.Close? && level > 0 then level - 1 else level
  }

  lemma PartRuns(d: Dialect, s: string, i: nat, p: Part, next: string, rest: string, level: nat)
    requires i <= |s| && s[i..] == PartText(p) + (next + rest) && level > 0 && |next| >= 2
    requires p.Text? ==> Quiet(d, p.text, next)
    requires p.Open? ==> d != MySQL
    ensures i + |PartText(p)| <= |s|
    ensures BlockEnd(d, s, i, level) == BlockEnd(d, s, i + |PartText(p)|, LevelPast(p, level))
  {
    hide Quiet, Two, BlockEnd;
    Prefix(s, i, PartText(p), next + rest);
    match p
    case Text(text) =>
      QuietMore(d, text, next, rest);
      QuietRuns(d, s, i, text, next + rest, level);
    case Open => PairAt(s, i, "/*", next + rest); MarkMoves(d, s, i, level);
    case Close => PairAt(s, i, "*/", next + rest); MarkMoves(d, s, i, level);
  }

  lemma MarkMoves(d: Dialect, s: string, i: nat, level: nat)
    requires i + 2 <= |s| && level > 0
    ensures Two(s, i, '/', '*') && d != MySQL ==> BlockEnd(d, s, i, level) == BlockEnd(d, s, i + 2, level + 1)
    ensures Two(s, i, '*', '/') ==> BlockEnd(d, s, i, level) == BlockEnd(d, s, i + 2, level - 1)
  {
  }

  lemma QuietMore(d: Dialect, text: string, next: string, rest: string)
    requires Quiet(d, text, next) && |next| >= 2
    ensures Quiet(d, text, next + rest)
  {
    forall k | 0 <= k < |text|
      ensures && !((text + (next + rest))[k] == '*' && (text + (next + rest))[k + 1] == '/')
              && (d != MySQL ==> !((text + (next + rest))[k] == '/' && (text + (next + rest))[k + 1] == '*'))
    {
      assert (text + (next + rest))[k] == (text + next)[k] && (text + (next + rest))[k + 1] == (text + next)[k + 1];
    }
  }

  lemma {:induction false} DigitsRun(s: string, i: nat, digits: string, rest: string)
    requires i <= |s| && s[i..] == digits + rest && (forall k :: 0 <= k < |digits| ==> '0' <= digits[k] <= '9')
    requires rest == "" || !('0' <= rest[0] <= '9')
    ensures DigitsEnd(s, i) == i + |digits|
    decreases |digits|
  {
    Prefix(s, i, digits, rest);
    if digits != "" {
      assert s[i] == digits[0];
      Drop(s, i, 1);
      assert s[i + 1..] == digits[1..] + rest;
      DigitsRun(s, i + 1, digits[1..], rest);
    }
  }

  lemma {:induction false} TagRuns(s: string, start: nat, i: nat, tag: string, first: bool, rest: string)
    requires start < i <= |s| && s[i..] == tag + ("$" + rest) && (first || i > start + 1)
    requires TagBytes(tag, first)
    ensures DollarEnd(s, start, i) == Some(i + |tag| + 1)
    decreases |tag|
  {
    hide TagByte, TagBytes, DollarEnd;
    Prefix(s, i, tag, "$" + rest);
    if tag == "" {
      TagEnds(s, start, i);
    } else {
      TagTail(tag, first);
      assert s[i + 0] == tag[0];
      TagGoesOn(s, start, i, first);
      Drop(s, i, 1);
      assert s[i + 1..] == tag[1..] + ("$" + rest);
      TagRuns(s, start, i + 1, tag[1..], false, rest);
    }
  }

  lemma TagTail(tag: string, first: bool)
    requires tag != "" && TagBytes(tag, first)
    ensures TagByte(tag[0], first) && TagBytes(tag[1..], false)
  {
    hide TagByte;
    forall k | 0 <= k < |tag| - 1 ensures TagByte(tag[1..][k], false) {
      assert TagByte(tag[k + 1], first && k + 1 == 0);
    }
  }

  lemma TagEnds(s: string, start: nat, i: nat)
    requires start < i < |s| && s[i] == '$'
    ensures DollarEnd(s, start, i) == Some(i + 1)
  {
  }

  lemma TagGoesOn(s: string, start: nat, i: nat, first: bool)
    requires start < i < |s| && TagByte(s[i], first) && (first || i > start + 1)
    ensures DollarEnd(s, start, i) == DollarEnd(s, start, i + 1)
  {
  }

  lemma {:induction false} FindRuns(s: string, i: nat, body: string, closer: string, rest: string)
    requires i <= |s| && s[i..] == body + closer + rest && NoCloser(body, closer)
    ensures Find(s, i, closer) == Some(i + |body|)
    decreases |body|
  {
    if body == "" {
      assert s[i..] == closer + rest;
      Prefix(s, i, closer, rest);
    } else {
      NotYet(s, i, body, closer, rest);
      Drop(s, i, 1);
      assert s[i + 1..] == body[1..] + closer + rest;
      FindRuns(s, i + 1, body[1..], closer, rest);
    }
  }

  lemma NotYet(s: string, i: nat, body: string, closer: string, rest: string)
    requires i <= |s| && s[i..] == body + closer + rest && NoCloser(body, closer) && body != ""
    ensures i < |s| && !At(s, i, closer) && NoCloser(body[1..], closer)
  {
    var t := body + closer;
    assert s[i..] == t + rest;
    Prefix(s, i, t, rest);
    assert !Occurs(t, 0, closer);
    assert s[i..i + |closer|] == s[i..][..|closer|] == t[..|closer|];
    assert body[1..] + closer == t[1..];
    forall k | 0 <= k < |body| - 1 ensures !Occurs(body[1..] + closer, k, closer) {
      assert !Occurs(t, k + 1, closer);
      assert t[1..][k..k + |closer|] == t[k + 1..k + 1 + |closer|];
    }
  }

  // ------------------------------------------------------------------
  // One item.

  lemma Skipped(d: Dialect, s: string, i: nat, depth: nat, executable: nat)
    requires i < |s| && Scan(d, s, i, executable).Skip?
    ensures LexFrom(d, s, i, depth, executable) == LexFrom(d, s, Scan(d, s, i, executable).next, depth, Scan(d, s, i, executable).executable)
  {
    hide Scan;
  }

  lemma ScanWhite(d: Dialect, s: string, i: nat, executable: nat)
    requires i < |s| && WhiteByte(s[i])
    ensures Scan(d, s, i, executable) == Skip(i + 1, executable)
  {
    hide TokenStep, CommentStep, LineEnd;
  }

  lemma {:induction false} SkipWhite(d: Dialect, s: string, i: nat, white: string, rest: string, depth: nat, executable: nat)
    requires i <= |s| && s[i..] == white + rest && Reads(d, White(white), rest, executable)
    ensures i + |white| <= |s| && LexFrom(d, s, i, depth, executable) == LexFrom(d, s, i + |white|, depth, executable)
    decreases |white|
  {
    hide LexFrom, WhiteByte, Scan;
    Prefix(s, i, white, rest);
    if white != "" {
      assert s[i] == white[0];
      Drop(s, i, 1);
      assert s[i + 1..] == white[1..] + rest;
      ScanWhite(d, s, i, executable);
      Skipped(d, s, i, depth, executable);
      SkipWhite(d, s, i + 1, white[1..], rest, depth, executable);
    }
  }

  lemma ScanLineComment(d: Dialect, s: string, i: nat, sharp: bool, text: string, rest: string, executable: nat)
    requires i <= |s| && s[i..] == ItemText(LineComment(sharp, text)) + rest && Reads(d, LineComment(sharp, text), rest, executable)
    ensures i < |s| && Scan(d, s, i, executable) == Skip(i + |ItemText(LineComment(sharp, text))|, executable)
  {
    hide Scan, LineEnd;
    var opener := if sharp then "#" else "--";
    Regrouped("", opener, text, rest);
    Prefix(s, i, opener, text + rest);
    assert s[i + 0] == opener[0] && (!sharp ==> s[i + 1] == opener[1]);
    LineRuns(s, i + |opener|, text, rest);
    ScanAtLine(d, s, i, executable);
  }

  lemma ScanAtLine(d: Dialect, s: string, i: nat, executable: nat)
    requires i < |s|
    ensures i + 1 < |s| && s[i] == '-' && s[i + 1] == '-' ==> Scan(d, s, i, executable) == Skip(LineEnd(s, i + 2), executable)
    ensures s[i] == '#' && (d == MySQL || d == Generic) ==> Scan(d, s, i, executable) == Skip(LineEnd(s, i + 1), executable)
  {
    hide TokenStep, CommentStep, LineEnd;
  }

  lemma CommentOpens(d: Dialect, s: string, i: nat, executable: nat)
    requires i + 2 <= |s| && Two(s, i, '/', '*')
    ensures Scan(d, s, i, executable) == CommentStep(d, s, i, executable)
  {
    hide TokenStep, CommentStep, LineEnd;
  }

  lemma ScanBlockComment(d: Dialect, s: string, i: nat, parts: seq<Part>, rest: string, executable: nat)
    requires i <= |s| && s[i..] == ItemText(BlockComment(parts)) + rest && Reads(d, BlockComment(parts), rest, executable)
    ensures i < |s| && Scan(d, s, i, executable) == Skip(i + |ItemText(BlockComment(parts))|, executable)
  {
    hide BlockEnd, Nested, Scan, MarkerLength, CommentStep, BodyText, Two;
    assert s[i..] == "/*" + (BodyText(parts) + "*/" + rest);
    PairAt(s, i, "/*", BodyText(parts) + "*/" + rest);
    NoMarker(d, s, i, BodyText(parts), rest);
    BlockRuns(d, s, i + 2, parts, 1, rest);
    CommentOpens(d, s, i, executable);
    BlockStepEnds(d, s, i, executable);
  }

  lemma BlockStepEnds(d: Dialect, s: string, i: nat, executable: nat)
    requires i + 2 <= |s| && MarkerLength(d, s, i) == 0 && BlockEnd(d, s, i + 2, 1).Some?
    ensures CommentStep(d, s, i, executable) == Skip(BlockEnd(d, s, i + 2, 1).value, executable)
  {
    hide MarkerLength, BlockEnd;
  }

  lemma NoMarker(d: Dialect, s: string, i: nat, body: string, rest: string)
    requires i + 2 <= |s| && s[i + 2..] == body + "*/" + rest && (d == MySQL || d == Generic ==> body == "" || body[0] != '!')
    ensures MarkerLength(d, s, i) == 0
  {
    hide DigitsEnd;
    assert (body + "*/" + rest)[0] == s[i + 2];
    if At(s, i, "/*!") {
      assert s[i..i + 3][2] == s[i + 2];
    }
  }

  lemma ScanMarker(d: Dialect, s: string, i: nat, digits: string, rest: string, executable: nat)
    requires i <= |s| && s[i..] == ItemText(Marker(digits)) + rest && Reads(d, Marker(digits), rest, executable)
    ensures i < |s| && Scan(d, s, i, executable) == Skip(i + |digits| + 3, executable + 1)
  {
    hide BlockEnd, Scan, MarkerLength, CommentStep, Two;
    MarkerRuns(d, s, i, digits, rest);
    CommentOpens(d, s, i, executable);
    MarkerStep(d, s, i, executable);
  }

  lemma MarkerStep(d: Dialect, s: string, i: nat, executable: nat)
    requires i + 2 <= |s| && MarkerLength(d, s, i) > 0
    ensures CommentStep(d, s, i, executable) == Skip(i + MarkerLength(d, s, i), executable + 1)
  {
    hide MarkerLength, BlockEnd;
  }

  lemma MarkerRuns(d: Dialect, s: string, i: nat, digits: string, rest: string)
    requires i <= |s| && s[i..] == ItemText(Marker(digits)) + rest && Reads(d, Marker(digits), rest, 0)
    ensures MarkerLength(d, s, i) == |digits| + 3 && i + 2 <= |s| && Two(s, i, '/', '*')
  {
    hide DigitsEnd;
    Regrouped("", "/*!", digits, rest);
    Prefix(s, i, "/*!", digits + rest);
    assert s[i + 0] == "/*!"[0] && s[i + 1] == "/*!"[1];
    DigitsRun(s, i + 3, digits, rest);
  }

  lemma ScanMarkerEnd(d: Dialect, s: string, i: nat, rest: string, executable: nat)
    requires i <= |s| && s[i..] == "*/" + rest && executable > 0
    ensures i < |s| && Scan(d, s, i, executable) == Skip(i + 2, executable - 1)
  {
    hide TokenStep, CommentStep, LineEnd;
    PairAt(s, i, "*/", rest);
  }

  /** An open executable comment changes only what its end mark is. */
  lemma ScanWithin(d: Dialect, s: string, i: nat, executable: nat)
    requires i < |s| && Scan(d, s, i, 0).Emit? && !(executable > 0 && Two(s, i, '*', '/'))
    ensures Scan(d, s, i, executable) == Scan(d, s, i, 0)
  {
    hide TokenStep, LineEnd;
  }

  lemma ScanPlain(d: Dialect, s: string, i: nat, x: Lexeme, rest: string, executable: nat)
    requires i <= |s| && s[i..] == Spell(x) + rest && Reads(d, Plain(x), rest, executable)
    ensures i < |s| && i + |Spell(x)| <= |s| && s[i..i + |Spell(x)|] == Spell(x)
    ensures Scan(d, s, i, executable) == Emit(i + |Spell(x)|, LowerOf(x), x.Word? || x.Quoted?, x.Quoted?)
    ensures s[i] == '(' <==> x == Mark('(')
    ensures s[i] == ')' <==> x == Mark(')')
  {
    hide Scan, LowerOf, Spell, Formed, Render.Fits, Two;
    ScanLexeme(d, s, i, x, rest);
    assert !(executable > 0 && Two(s, i, '*', '/')) by { NoEndMark(d, s, i, x, rest, executable); }
    ScanWithin(d, s, i, executable);
  }

  lemma NoEndMark(d: Dialect, s: string, i: nat, x: Lexeme, rest: string, executable: nat)
    requires i <= |s| && s[i..] == Spell(x) + rest && Reads(d, Plain(x), rest, executable)
    ensures !(executable > 0 && Two(s, i, '*', '/'))
  {
    hide Double, LiteralBody;
    Prefix(s, i, Spell(x), rest);
    assert s[i + 0] == Spell(x)[0];
    if x == Mark('*') && rest != "" {
      assert s[i + 1] == rest[0];
    }
  }

  lemma ScanSharp(d: Dialect, s: string, i: nat, rest: string, executable: nat)
    requires i <= |s| && s[i..] == "#" + rest && (d == Postgres || d == MSSQL)
    ensures i < |s| && Scan(d, s, i, executable) == Emit(i + 1, "#", false, false) && s[i..i + 1] == "#"
  {
    hide CommentStep, LineEnd;
    Prefix(s, i, "#", rest);
    assert s[i..i + 1] == "#" && ToLower("#") == "#";
  }

  lemma {:induction false} NoTagRuns(s: string, start: nat, i: nat, text: string, first: bool, rest: string)
    requires start < i <= |s| && s[i..] == text + rest && NoTag(text, first) && (first <==> i == start + 1)
    requires rest == "" || !NameByte(rest[0])
    ensures DollarEnd(s, start, i).None?
    decreases |text|
  {
    hide DollarEnd, NoTag, TagByte, NameByte;
    Prefix(s, i, text, rest);
    if text == "" {
      if rest != "" {
        NoNameNoTag(s, start, i);
      } else {
        NothingLeft(s, start);
      }
    } else {
      FirstByte(s, i, text[0], text[1..] + rest);
      NoTagStep(text, first);
      if TagByte(text[0], first) {
        TagGoesOn(s, start, i, first);
        NoTagRuns(s, start, i + 1, text[1..], false, rest);
      } else {
        TagStops(s, start, i, first);
      }
    }
  }

  lemma NothingLeft(s: string, start: nat)
    requires start < |s|
    ensures DollarEnd(s, start, |s|).None?
  {
  }

  lemma NoNameNoTag(s: string, start: nat, i: nat)
    requires start < i < |s| && !NameByte(s[i])
    ensures DollarEnd(s, start, i).None?
  {
  }

  lemma TagStops(s: string, start: nat, i: nat, first: bool)
    requires start < i < |s| && s[i] != '$' && !TagByte(s[i], first) && (first <==> i == start + 1)
    ensures DollarEnd(s, start, i).None?
  {
  }

  lemma NoTagStep(text: string, first: bool)
    requires text != "" && NoTag(text, first)
    ensures text[0] != '$'
    ensures TagByte(text[0], first) ==> NoTag(text[1..], false)
  {
    hide TagByte, TagBytes;
    NoBytes(first);
    assert text[..0] == "";
    if TagByte(text[0], first) {
      forall j | 0 <= j < |text| - 1 && text[1..][j] == '$' ensures !TagBytes(text[1..][..j], false) {
        assert text[j + 1] == '$';
        TagLonger(text, j, first);
      }
    }
  }

  lemma NoBytes(first: bool)
    ensures TagBytes("", first)
  {
  }

  lemma TagLonger(text: string, j: nat, first: bool)
    requires j < |text| && TagByte(text[0], first)
    ensures TagBytes(text[1..][..j], false) ==> TagBytes(text[..j + 1], first)
  {
    hide TagByte;
    var longer, shorter := text[..j + 1], text[1..][..j];
    if TagBytes(shorter, false) {
      forall k | 0 <= k < |longer| ensures TagByte(longer[k], first && k == 0) {
        assert k > 0 ==> longer[k] == shorter[k - 1] && TagByte(shorter[k - 1], false && k - 1 == 0);
      }
    }
  }

  lemma ScanBare(d: Dialect, s: string, i: nat, name: string, rest: string, executable: nat)
    requires i <= |s| && s[i..] == name + rest && Reads(d, Bare(name), rest, executable)
    ensures i < |s| && s[i] != '(' && s[i] != ')' && i + |name| <= |s| && s[i..i + |name|] == name
    ensures Scan(d, s, i, executable) == Emit(i + |name|, ToLower(name), true, false)
  {
    hide Scan, NoTag, DollarEnd, WordStep;
    Prefix(s, i, name, rest);
    assert s[i + 0] == name[0] && NameByte(name[0]);
    if name[0] == '$' {
      assert name + rest == [name[0]] + (name[1..] + rest);
      FirstByte(s, i, name[0], name[1..] + rest);
      NoTagRuns(s, i, i + 1, name[1..], true, rest);
    }
    NameRuns(s, i, name, rest);
    ScanAtName(d, s, i, executable);
  }

  lemma NameRuns(s: string, i: nat, name: string, rest: string)
    requires i <= |s| && s[i..] == name + rest && name != "" && (forall k :: 0 <= k < |name| ==> NameByte(name[k])) && (rest == "" || !NameByte(rest[0]))
    ensures i < |s| && WordStep(s, i) == Emit(i + |name|, ToLower(name), true, false)
  {
    hide IdentEnd;
    Prefix(s, i, name, rest);
    forall k | i <= k < i + |name| ensures IdentByte(s[k]) {
      assert s[i + (k - i)] == name[k - i];
    }
    IdentRuns(s, i + 1, i + |name|);
  }

  lemma ScanAtName(d: Dialect, s: string, i: nat, executable: nat)
    requires i < |s| && NameByte(s[i]) && !WhiteByte(s[i]) && (s[i] == '$' ==> DollarEnd(s, i, i + 1).None?)
    ensures Scan(d, s, i, executable) == WordStep(s, i)
  {
    hide CommentStep, LineEnd, StringStep, QuotedStep, DollarStep, WordStep, ByteStep, DollarEnd;
  }

  lemma ScanDollar(d: Dialect, s: string, i: nat, tag: string, body: string, rest: string, executable: nat)
    requires i <= |s| && s[i..] == ItemText(Dollar(tag, body)) + rest && Reads(d, Dollar(tag, body), rest, executable)
    ensures i < |s| && s[i] == '$' && Scan(d, s, i, executable) == Emit(i + |ItemText(Dollar(tag, body))|, "?", false, false)
  {
    hide Scan, DollarEnd, DollarStep, NoCloser, Tagged, TagBytes;
    var closer := Tagged(tag);
    Regrouped(closer, body, closer, rest);
    TagOpens(s, i, tag, body + (closer + rest));
    Prefix(s, i, closer, body + (closer + rest));
    BodyCloses(s, i, body, closer, rest);
    ScanAtDollar(d, s, i, executable);
  }

  lemma TagOpens(s: string, i: nat, tag: string, rest: string)
    requires i <= |s| && s[i..] == Tagged(tag) + rest && TagBytes(tag, true)
    ensures i < |s| && s[i] == '$' && DollarEnd(s, i, i + 1) == Some(i + |Tagged(tag)|)
  {
    hide DollarEnd, TagBytes, Tagged;
    TaggedText(tag, rest);
    FirstByte(s, i, '$', tag + ("$" + rest));
    TagRuns(s, i, i + 1, tag, true, rest);
  }

  lemma TaggedText(tag: string, rest: string)
    ensures Tagged(tag) + rest == ['$'] + (tag + ("$" + rest)) && |Tagged(tag)| == |tag| + 2
  {
  }

  lemma FirstByte(s: string, i: nat, c: char, rest: string)
    requires i <= |s| && s[i..] == [c] + rest
    ensures i < |s| && s[i] == c && s[i + 1..] == rest
  {
    Prefix(s, i, [c], rest);
    assert s[i + 0] == [c][0];
  }

  lemma Regrouped(a: string, b: string, c: string, rest: string)
    ensures a + b + c + rest == a + (b + (c + rest))
  {
  }

  lemma BodyCloses(s: string, i: nat, body: string, closer: string, rest: string)
    requires closer != "" && i + |closer| <= |s| && s[i..i + |closer|] == closer
    requires s[i + |closer|..] == body + (closer + rest) && NoCloser(body, closer)
    ensures DollarStep(s, i, i + |closer|) == Emit(i + |closer| + |body| + |closer|, "?", false, false)
  {
    hide Find, NoCloser;
    Regrouped("", body, closer, rest);
    FindRuns(s, i + |closer|, body, closer, rest);
  }

  lemma ScanAtDollar(d: Dialect, s: string, i: nat, executable: nat)
    requires i < |s| && s[i] == '$' && DollarEnd(s, i, i + 1).Some?
    ensures Scan(d, s, i, executable) == DollarStep(s, i, DollarEnd(s, i, i + 1).value)
  {
    hide CommentStep, LineEnd, DollarStep, DollarEnd;
  }

  lemma Emitted(d: Dialect, s: string, i: nat, depth: nat, executable: nat)
    requires i < |s| && Scan(d, s, i, executable).Emit? && (s[i] == ')' ==> depth > 0)
    ensures LexFrom(d, s, i, depth, executable)
         == Prepend([MakeToken(s, i, Scan(d, s, i, executable), TokenDepth(s[i], depth))],
                    LexFrom(d, s, Scan(d, s, i, executable).next, DepthAfter(s[i], depth), executable))
  {
    hide Scan, MakeToken;
  }

  lemma ItemRead(d: Dialect, s: string, i: nat, x: Item, rest: string, depth: nat, executable: nat)
    requires i <= |s| && s[i..] == ItemText(x) + rest && Reads(d, x, rest, executable) && (x == Plain(Mark(')')) ==> depth > 0)
    ensures i + |ItemText(x)| <= |s|
    ensures LexFrom(d, s, i, depth, executable)
         == Prepend(ItemTokens(x, i, depth), LexFrom(d, s, i + |ItemText(x)|, DepthPast(x, depth), ExecutablePast(x, executable)))
  {
    Prefix(s, i, ItemText(x), rest);
    if x.Plain? {
      PlainRead(d, s, i, x, rest, depth, executable);
    } else if x.Sharp? || x.Dollar? || x.Bare? {
      TokenRead(d, s, i, x, rest, depth, executable);
    } else {
      BlankRead(d, s, i, x, rest, depth, executable);
      PrependNothing(LexFrom(d, s, i + |ItemText(x)|, depth, ExecutablePast(x, executable)));
    }
  }

  lemma PlainRead(d: Dialect, s: string, i: nat, x: Item, rest: string, depth: nat, executable: nat)
    requires x.Plain? && i <= |s| && s[i..] == ItemText(x) + rest && Reads(d, x, rest, executable) && (x == Plain(Mark(')')) ==> depth > 0)
    ensures i + |ItemText(x)| <= |s|
    ensures LexFrom(d, s, i, depth, executable)
         == Prepend(ItemTokens(x, i, depth), LexFrom(d, s, i + |ItemText(x)|, DepthPast(x, depth), executable))
  {
    hide Scan, LowerOf, Spell, Reads, LexFrom;
    ScanPlain(d, s, i, x.x, rest, executable);
    Emitted(d, s, i, depth, executable);
  }

  lemma TokenRead(d: Dialect, s: string, i: nat, x: Item, rest: string, depth: nat, executable: nat)
    requires (x.Sharp? || x.Dollar? || x.Bare?) && i <= |s| && s[i..] == ItemText(x) + rest && Reads(d, x, rest, executable)
    ensures i + |ItemText(x)| <= |s|
    ensures LexFrom(d, s, i, depth, executable) == Prepend(ItemTokens(x, i, depth), LexFrom(d, s, i + |ItemText(x)|, depth, executable))
  {
    hide Scan, LexFrom, NoCloser, Tagged;
    Prefix(s, i, ItemText(x), rest);
    if x.Sharp? {
      ScanSharp(d, s, i, rest, executable);
    } else if x.Bare? {
      ScanBare(d, s, i, x.name, rest, executable);
    } else {
      ScanDollar(d, s, i, x.tag, x.body, rest, executable);
    }
    Emitted(d, s, i, depth, executable);
  }

  /** White space, comments, and the marks of executable comments. */
  lemma BlankRead(d: Dialect, s: string, i: nat, x: Item, rest: string, depth: nat, executable: nat)
    requires !x.Plain? && !x.Sharp? && !x.Dollar? && !x.Bare? && i <= |s| && s[i..] == ItemText(x) + rest && Reads(d, x, rest, executable)
    ensures i + |ItemText(x)| <= |s|
    ensures LexFrom(d, s, i, depth, executable) == LexFrom(d, s, i + |ItemText(x)|, depth, ExecutablePast(x, executable))
  {
    hide Scan, LexFrom, Reads;
    Prefix(s, i, ItemText(x), rest);
    match x
    case White(white) => SkipWhite(d, s, i, white, rest, depth, executable);
    case LineComment(sharp, text) => ScanLineComment(d, s, i, sharp, text, rest, executable); Skipped(d, s, i, depth, executable);
    case BlockComment(parts) => ScanBlockComment(d, s, i, parts, rest, executable); Skipped(d, s, i, depth, executable);
    case Marker(digits) => ScanMarker(d, s, i, digits, rest, executable); Skipped(d, s, i, depth, executable);
    case MarkerEnd => EndMarkOpen(d, rest, executable); ScanMarkerEnd(d, s, i, rest, executable); Skipped(d, s, i, depth, executable);
  }

  lemma EndMarkOpen(d: Dialect, rest: string, executable: nat)
    requires Reads(d, MarkerEnd, rest, executable)
    ensures executable > 0
  {
  }

  // ------------------------------------------------------------------
  // The whole list, before any text.

  lemma {:induction false} SourceRead(d: Dialect, s: string, i: nat, xs: seq<Item>, rest: string, depth: nat, executable: nat)
    requires i <= |s| && s[i..] == SourceText(xs) + rest && AllRead(d, xs, rest, depth, executable)
    ensures i + |SourceText(xs)| <= |s|
    ensures LexFrom(d, s, i, depth, executable)
         == Prepend(SourceTokens(xs, i, depth), LexFrom(d, s, i + |SourceText(xs)|, DepthAfterAll(xs, depth), ExecutableAfterAll(xs, executable)))
    decreases |xs|
  {
    hide *;
    if xs == [] {
      NothingRead(xs, i, depth, executable);
      PrependNothing(LexFrom(d, s, i, depth, executable));
    } else {
      var x, tail, text := xs[0], xs[1..], ItemText(xs[0]);
      FirstItem(d, xs, rest, i, depth, executable);
      assert s[i..] == text + (SourceText(tail) + rest);
      Prefix(s, i, text, SourceText(tail) + rest);
      ItemRead(d, s, i, x, SourceText(tail) + rest, depth, executable);
      SourceRead(d, s, i + |text|, tail, rest, DepthPast(x, depth), ExecutablePast(x, executable));
      PrependTwice(ItemTokens(x, i, depth), SourceTokens(tail, i + |text|, DepthPast(x, depth)),
                   LexFrom(d, s, i + |text| + |SourceText(tail)|, DepthAfterAll(xs, depth), ExecutableAfterAll(xs, executable)));
    }
  }

  lemma NothingRead(xs: seq<Item>, at: nat, depth: nat, executable: nat)
    requires xs == []
    ensures SourceText(xs) == "" && SourceTokens(xs, at, depth) == [] && DepthAfterAll(xs, depth) == depth && ExecutableAfterAll(xs, executable) == executable
  {
  }

  lemma FirstItem(d: Dialect, xs: seq<Item>, rest: string, at: nat, depth: nat, executable: nat)
    requires xs != []
    ensures var x, tail := xs[0], xs[1..];
            && SourceText(xs) == ItemText(x) + SourceText(tail)
            && SourceTokens(xs, at, depth) == ItemTokens(x, at, depth) + SourceTokens(tail, at + |ItemText(x)|, DepthPast(x, depth))
            && DepthAfterAll(xs, depth) == DepthAfterAll(tail, DepthPast(x, depth))
            && ExecutableAfterAll(xs, executable) == ExecutableAfterAll(tail, ExecutablePast(x, executable))
            && (AllRead(d, xs, rest, depth, executable) <==>
                  && Reads(d, x, SourceText(tail) + rest, executable) && (x == Plain(Mark(')')) ==> depth > 0)
                  && AllRead(d, tail, rest, DepthPast(x, depth), ExecutablePast(x, executable)))
  {
    hide Reads, ItemText, ItemTokens, DepthPast, ExecutablePast;
  }

  /** Main result: source text that is spelled from items, whatever follows it, lexes to the items' tokens and then to what
      follows, read alone with the parentheses and executable comments that are still open. */
  lemma LexReadsSource(d: Dialect, xs: seq<Item>, rest: string, depth: nat, executable: nat)
    requires AllRead(d, xs, rest, depth, executable)
    ensures LexFrom(d, SourceText(xs) + rest, 0, depth, executable)
         == Prepend(SourceTokens(xs, 0, depth),
                    MoveResult(LexFrom(d, rest, 0, DepthAfterAll(xs, depth), ExecutableAfterAll(xs, executable)), |SourceText(xs)|))
  {
    hide LexFrom, AllRead, SourceTokens, DepthAfterAll, ExecutableAfterAll;
    var s := SourceText(xs) + rest;
    assert s[0..] == s;
    SourceRead(d, s, 0, xs, rest, depth, executable);
    LexSuffix(d, s, |SourceText(xs)|, DepthAfterAll(xs, depth), ExecutableAfterAll(xs, executable));
    assert s[|SourceText(xs)|..] == rest;
  }

  /** A comment, whatever follows it and wherever it stands, is what a space is. */
  lemma CommentsAreBlank(d: Dialect, xs: seq<Item>, c: Item, rest: string, depth: nat, executable: nat)
    requires c.LineComment? || c.BlockComment?
    requires AllRead(d, xs + [c], rest, depth, executable) && AllRead(d, xs + [White(" ")], rest, depth, executable)
    ensures var after := LexFrom(d, rest, 0, DepthAfterAll(xs, depth), ExecutableAfterAll(xs, executable));
            && LexFrom(d, SourceText(xs + [c]) + rest, 0, depth, executable)
               == Prepend(SourceTokens(xs, 0, depth), MoveResult(after, |SourceText(xs)| + |ItemText(c)|))
            && LexFrom(d, SourceText(xs + [White(" ")]) + rest, 0, depth, executable)
               == Prepend(SourceTokens(xs, 0, depth), MoveResult(after, |SourceText(xs)| + 1))
  {
    hide LexFrom, AllRead, Reads, ItemText;
    LexReadsSource(d, xs + [c], rest, depth, executable);
    LexReadsSource(d, xs + [White(" ")], rest, depth, executable);
    BlankLast(xs, c, 0, depth, executable);
    BlankLast(xs, White(" "), 0, depth, executable);
    assert |ItemText(White(" "))| == 1 by { SpaceLength(); }
  }

  lemma SpaceLength()
    ensures |ItemText(White(" "))| == 1
  {
  }

  lemma {:induction false} BlankLast(xs: seq<Item>, c: Item, at: nat, depth: nat, executable: nat)
    requires c.LineComment? || c.BlockComment? || c.White?
    ensures SourceTokens(xs + [c], at, depth) == SourceTokens(xs, at, depth)
    ensures SourceText(xs + [c]) == SourceText(xs) + ItemText(c)
    ensures DepthAfterAll(xs + [c], depth) == DepthAfterAll(xs, depth)
    ensures ExecutableAfterAll(xs + [c], executable) == ExecutableAfterAll(xs, executable)
    decreases |xs|
  {
    hide *;
    if xs == [] {
      assert xs + [c] == [c];
      BlankAlone(c, at, depth, executable);
      NothingRead([], at, depth, executable);
    } else {
      var all := xs + [c];
      assert all[0] == xs[0] && all[1..] == xs[1..] + [c];
      FirstItem(Generic, all, "", at, depth, executable);
      FirstItem(Generic, xs, "", at, depth, executable);
      BlankLast(xs[1..], c, at + |ItemText(xs[0])|, DepthPast(xs[0], depth), ExecutablePast(xs[0], executable));
    }
  }

  lemma BlankAlone(c: Item, at: nat, depth: nat, executable: nat)
    requires c.LineComment? || c.BlockComment? || c.White?
    ensures SourceTokens([c], at, depth) == [] && SourceText([c]) == ItemText(c)
    ensures DepthAfterAll([c], depth) == depth && ExecutableAfterAll([c], executable) == executable
  {
    hide ItemText;
    FirstItem(Generic, [c], "", at, depth, executable);
    NothingRead([], at + |ItemText(c)|, depth, executable);
  }

  /** The smallest case: one line comment in front of any text. */
  lemma LeadingLineComment(d: Dialect, sharp: bool, text: string, rest: string)
    requires '\n' !in text && (sharp ==> d == MySQL || d == Generic)
    ensures Lex(d, ItemText(LineComment(sharp, text)) + "\n" + rest) == MoveResult(Lex(d, rest), |ItemText(LineComment(sharp, text))| + 1)
    ensures Lex(d, ItemText(LineComment(sharp, text))) == Ok([])
  {
    hide LexFrom, ItemText;
    var c, line := LineComment(sharp, text), [LineComment(sharp, text), White("\n")];
    assert line[1..] == [White("\n")] && [White("\n")][1..] == [] && [c][1..] == [];
    assert ItemText(White("\n")) == "\n" by { NewlineText(); }
    assert SourceText(line) == ItemText(c) + "\n" && SourceText([c]) == ItemText(c);
    assert AllRead(d, [White("\n")], rest, 0, 0);
    LexReadsSource(d, line, rest, 0, 0);
    LexReadsSource(d, [c], "", 0, 0);
    assert ItemText(c) + "" == ItemText(c);
    assert SourceTokens([c], 0, 0) == [] && SourceTokens([White("\n")], |ItemText(c)|, 0) == [] && SourceTokens(line, 0, 0) == [];
    PrependNothing(MoveResult(Lex(d, rest), |ItemText(c)| + 1));
    LexEnd(d, "");
  }

  lemma NewlineText()
    ensures ItemText(White("\n")) == "\n"
  {
  }

  // ------------------------------------------------------------------
  // What never closes.

  predicate Absent(text: string, word: string) {
    forall k :: 0 <= k < |text| ==> !Occurs(text, k, word)
  }

  lemma PairOccurs(s: string, i: nat)
    requires i <= |s|
    ensures Two(s, i, '*', '/') ==> Occurs(s, i, "*/")
  {
    if Two(s, i, '*', '/') {
      assert s[i..i + 2] == "*/";
    }
  }

  lemma {:induction false} NeverEnds(d: Dialect, s: string, i: nat, level: nat)
    requires i <= |s| && level > 0 && forall k :: i <= k < |s| ==> !Occurs(s, k, "*/")
    ensures BlockEnd(d, s, i, level).None?
    decreases |s| - i
  {
    hide Two, Occurs, BlockEnd;
    if i == |s| {
      AtTextEnd(d, s, level);
    } else {
      PairOccurs(s, i);
      BlockStep(d, s, i, level);
      var (n, next) := BlockMove(d, s, i, level);
      NeverEnds(d, s, i + n, next);
    }
  }

  lemma AtTextEnd(d: Dialect, s: string, level: nat)
    requires level > 0
    ensures BlockEnd(d, s, |s|, level).None?
  {
  }

  /** A comment that nothing closes is an error, in every dialect. */
  lemma UnclosedComment(d: Dialect, text: string, depth: nat, executable: nat)
    requires Absent(text, "*/") && (d == MySQL || d == Generic ==> text == "" || text[0] != '!')
    ensures LexFrom(d, "/*" + text, 0, depth, executable) == Err(UnterminatedComment)
  {
    hide BlockEnd, Scan, MarkerLength, Occurs, Two;
    var s := "/*" + text;
    assert s[0..] == s;
    PairAt(s, 0, "/*", text);
    assert MarkerLength(d, s, 0) == 0 by { NoBang(d, s, text); }
    forall k | 2 <= k < |s| ensures !Occurs(s, k, "*/") {
      assert !Occurs(text, k - 2, "*/");
      OccursPast("/*", text, k, "*/");
    }
    NeverEnds(d, s, 2, 1);
    CommentOpens(d, s, 0, executable);
  }

  lemma NoBang(d: Dialect, s: string, text: string)
    requires s == "/*" + text && (d == MySQL || d == Generic ==> text == "" || text[0] != '!')
    ensures MarkerLength(d, s, 0) == 0
  {
    hide DigitsEnd;
    if At(s, 0, "/*!") {
      assert s[0..3][2] == s[2];
    }
  }

  lemma {:induction false} NotFound(s: string, i: nat, word: string)
    requires i <= |s| && word != "" && forall k :: i <= k < |s| ==> !Occurs(s, k, word)
    ensures Find(s, i, word).None?
    decreases |s| - i
  {
    if i < |s| {
      assert !Occurs(s, i, word);
      NotFound(s, i + 1, word);
    }
  }

  /** A dollar quote that nothing closes is an error, in every dialect. */
  lemma UnclosedDollar(d: Dialect, tag: string, body: string, depth: nat, executable: nat)
    requires TagBytes(tag, true) && Absent(body, Tagged(tag))
    ensures LexFrom(d, Tagged(tag) + body, 0, depth, executable) == Err(UnterminatedDollarQuote)
  {
    hide Scan, DollarEnd, Occurs, Tagged, TagBytes, Find;
    var s, closer := Tagged(tag) + body, Tagged(tag);
    assert s[0..] == s && |closer| == |tag| + 2 by { TaggedText(tag, body); }
    TagOpens(s, 0, tag, body);
    forall k | |closer| <= k < |s| ensures !Occurs(s, k, closer) {
      assert !Occurs(body, k - |closer|, closer);
      OccursPast(closer, body, k, closer);
    }
    NotFound(s, |closer|, closer);
    assert s[0..|closer|] == closer;
    ScanAtDollar(d, s, 0, executable);
  }

  lemma OccursPast(a: string, text: string, k: nat, word: string)
    requires k >= |a|
    ensures Occurs(a + text, k, word) <==> Occurs(text, k - |a|, word)
  {
    if k - |a| + |word| <= |text| {
      assert (a + text)[k..k + |word|] == text[k - |a|..k - |a| + |word|];
    }
  }
}
