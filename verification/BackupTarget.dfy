/** Which statements are backed up, and when the backup selects its rows by the
    statement's own condition. */
module BackupTarget {
  import opened Prelude
  import opened Bytes
  import opened Lexer
  import opened Window
  import opened Splitter
  import opened SplitAgreement
  import opened Classifier
  import opened RowBackup
  import opened SetList

  /** The one table, and the condition its changed rows are read with. */
  datatype Target = Target(kind: WriteKind, schema: string, table: string, condition: string)

  // ------------------------------------------------------------------
  // The decision.

  /** First token at or after i whose word is one of these, quoted or not. */
  function FindWord(top: seq<Token>, words: seq<string>, i: nat): (k: nat)
    requires i <= |top|
    ensures i <= k <= |top|
    ensures k < |top| ==> top[k].lower in words
    ensures forall j :: i <= j < k ==> top[j].lower !in words
    decreases |top| - i
  {
    if i == |top| || top[i].lower in words then i else FindWord(top, words, i + 1)
  }

  function CountWord(top: seq<Token>, word: string, n: nat): nat
    requires n <= |top|
  {
    if n == 0 then 0 else CountWord(top, word, n - 1) + if top[n - 1].lower == word then 1 else 0
  }

  const JOIN_WORDS: seq<string> := ["join", "using"]
  const WHERE_WORD: seq<string> := ["where"]
  const TAIL_WORDS: seq<string> := ["order", "limit", "returning", "option"]
  const WHOLE_TABLE_STOPS: seq<string> := ["order", "limit", "returning", "option", "using", "where"]

  predicate WholeTable(info: Info) {
    info.command == Delete && !info.hasWhere
  }

  predicate OneTableWrite(info: Info) {
    && !info.isScript
    && (info.command == Update || info.command == Delete)
    && |info.tables| == 1
    && (info.hasWhere || WholeTable(info))
  }

  /** No joined table, no extra FROM, and a WHERE unless the whole table goes. */
  predicate SimpleShape(info: Info, top: seq<Token>) {
    && |top| >= 2 && top[0].lower != "with"
    && FindWord(top, JOIN_WORDS, 0) == |top|
    && (FindWord(top, WHERE_WORD, 0) < |top| || WholeTable(info))
    && (info.command == Update ==> CountWord(top, "from", |top|) == 0)
    && (info.command == Delete ==> CountWord(top, "from", |top|) == 1 && top[1].lower == "from")
  }

  predicate TrimmedRight(c: char) {
    c == ';' || c == ' ' || c == '\t' || c == '\r' || c == '\n'
  }

  function TrimRightEnd(s: string, n: nat): (e: nat)
    requires n <= |s|
    ensures e <= n && (forall k :: e <= k < n ==> TrimmedRight(s[k])) && (e > 0 ==> !TrimmedRight(s[e - 1]))
  {
    if n > 0 && TrimmedRight(s[n - 1]) then TrimRightEnd(s, n - 1) else n
  }

  function TrimRight(s: string): string {
    s[..TrimRightEnd(s, |s|)]
  }

  /** Text between the WHERE and what ends the condition, trimmed. */
  function ConditionIn(raw: string, top: seq<Token>): string {
    var w := FindWord(top, WHERE_WORD, 0);
    if w == |top| then ""
    else
      var stop := FindWord(top, TAIL_WORDS, w + 1);
      TrimRight(TrimSpace(Text(raw, top[w].end, if stop < |top| then top[stop].start else |raw|)))
  }

  function KindOf(info: Info): WriteKind {
    if info.command == Delete then DeleteBackup else UpdateBackup
  }

  function BackupTargetOf(info: Info): Option<Target> {
    var top := Top(info.tokens);
    if !OneTableWrite(info) || !SimpleShape(info, top) then None
    else
      var table := info.tables[0];
      if WholeTable(info) then
        if FindWord(top, WHOLE_TABLE_STOPS, 2) < |top| then None
        else Some(Target(DeleteBackup, table.schema, table.name, "1=1"))
      else if ConditionIn(info.raw, top) == "" then None
      else Some(Target(KindOf(info), table.schema, table.name, ConditionIn(info.raw, top)))
  }

  // ------------------------------------------------------------------
  // The loops of the program.

  method TopTokens(ts: seq<Token>) returns (top: seq<Token>)
    ensures top == Top(ts)
  {
    top := [];
    assert ts[0..] == ts;
    for i := 0 to |ts|
      invariant Top(ts) == top + Top(ts[i..])
    {
      hide Top;
      TopStep(ts, i);
      if ts[i].depth == 0 {
        top := top + [ts[i]];
      }
    }
    assert ts[|ts|..] == [];
  }

  method ScanTop(top: seq<Token>) returns (joins: bool, where: nat, froms: nat)
    ensures joins <==> FindWord(top, JOIN_WORDS, 0) < |top|
    ensures !joins ==> where == FindWord(top, WHERE_WORD, 0) && froms == CountWord(top, "from", |top|)
  {
    where, froms := |top|, 0;
    for index := 0 to |top|
      invariant FindWord(top, JOIN_WORDS, 0) == FindWord(top, JOIN_WORDS, index)
      invariant where == |top| ==> FindWord(top, WHERE_WORD, 0) == FindWord(top, WHERE_WORD, index)
      invariant where < |top| ==> where == FindWord(top, WHERE_WORD, 0)
      invariant where <= |top| && froms == CountWord(top, "from", index)
    {
      if top[index].lower == "join" || top[index].lower == "using" {
        return true, where, froms;
      } else if top[index].lower == "from" {
        froms := froms + 1;
      } else if top[index].lower == "where" {
        if where == |top| {
          where := index;
        }
      }
    }
    joins := false;
  }

  method FindFrom(top: seq<Token>, words: seq<string>, from: nat) returns (at: nat)
    requires from <= |top|
    ensures at == FindWord(top, words, from)
  {
    at := from;
    while at < |top|
      invariant from <= at <= |top| && FindWord(top, words, at) == FindWord(top, words, from)
    {
      if top[at].lower in words {
        return;
      }
      at := at + 1;
    }
  }

  method DecideTarget(info: Info) returns (target: Option<Target>)
    ensures target == BackupTargetOf(info)
  {
    hide FindWord, CountWord, TrimSpace, TrimRight, Top, Text;
    if info.isScript {
      return None;
    }
    var wholeTable := info.command == Delete && !info.hasWhere;
    if (info.command != Update && info.command != Delete) || |info.tables| != 1 || (!info.hasWhere && !wholeTable) {
      return None;
    }
    var top := TopTokens(info.tokens);
    if |top| < 2 || top[0].lower == "with" {
      return None;
    }
    var joins, where, froms := ScanTop(top);
    if joins {
      return None;
    }
    if (where == |top| && !wholeTable) || (info.command == Update && froms > 0) || (info.command == Delete && (froms != 1 || top[1].lower != "from")) {
      return None;
    }
    var table := info.tables[0];
    if wholeTable {
      var stop := FindFrom(top, WHOLE_TABLE_STOPS, 2);
      return if stop < |top| then None else Some(Target(DeleteBackup, table.schema, table.name, "1=1"));
    }
    var stop := FindFrom(top, TAIL_WORDS, where + 1);
    var end := if stop < |top| then top[stop].start else |info.raw|;
    var condition := TrimRight(TrimSpace(Text(info.raw, top[where].end, end)));
    if condition == "" {
      return None;
    }
    target := Some(Target(if info.command == Delete then DeleteBackup else UpdateBackup, table.schema, table.name, condition));
  }

  // ------------------------------------------------------------------
  // Trimming ';' and white space off the end of a text.

  /** What is kept of x: from TrimLow to here. */
  function KeptTo(x: string): (e: nat)
    ensures TrimLow(x) <= e <= TrimHigh(x)
  {
    TrimLow(x) + TrimRightEnd(TrimSpace(x), |TrimSpace(x)|)
  }

  lemma KeptText(x: string)
    ensures TrimRight(TrimSpace(x)) == x[TrimLow(x)..KeptTo(x)]
    ensures forall k :: KeptTo(x) <= k < |x| ==> MarginByte(x[k])
  {
    var lo, hi, t := TrimLow(x), TrimHigh(x), TrimSpace(x);
    var n := TrimRightEnd(t, |t|);
    assert t[..n] == x[lo..lo + n];
    forall k | KeptTo(x) <= k < |x| ensures MarginByte(x[k]) {
      if k < hi {
        assert x[k] == t[k - lo] && TrimmedRight(t[k - lo]);
      }
    }
  }

  /** A trimmed text reads as before exactly when the trimming cuts no token. */
  lemma TrimRightAgrees(d: Dialect, x: string)
    requires PlainComments(d) && Lex(d, x).Ok?
    ensures Inside(Lex(d, x).value, TrimLow(x), KeptTo(x))
       <==> Lex(d, TrimRight(TrimSpace(x))).Ok? && MoveAll(Lex(d, TrimRight(TrimSpace(x))).value, TrimLow(x)) == Lex(d, x).value
  {
    hide TrimRight, TrimSpace, KeptTo, TrimLow;
    var lo, e := TrimLow(x), KeptTo(x);
    var ts := Lex(d, x).value;
    KeptText(x);
    WholeInOrder(d, x);
    if Inside(ts, lo, e) {
      LowIsTrimFrom(x);
      assert Inside(ts, lo, |x|);
      LeftMargin(d, x, 0);
      RightMargin(d, x, lo, 0, lo, e);
    }
    var cut := TrimRight(TrimSpace(x));
    if Lex(d, cut).Ok? && MoveAll(Lex(d, cut).value, lo) == ts {
      var us := Lex(d, cut).value;
      WholeInOrder(d, cut);
      forall k | 0 <= k < |ts| ensures lo <= ts[k].start && ts[k].end <= e {
        assert ts[k] == Move(us[k], lo);
      }
    }
  }

  lemma LowIsTrimFrom(x: string)
    ensures TrimLow(x) == TrimFrom(x, 0)
  {
  }

  // ------------------------------------------------------------------
  // Positions among all tokens.

  /** First top-level token at or after i whose word is one of these. */
  function FindTop(ts: seq<Token>, words: seq<string>, i: nat): (k: nat)
    requires i <= |ts|
    ensures i <= k <= |ts|
    ensures k < |ts| ==> ts[k].depth == 0 && ts[k].lower in words
    ensures forall j :: i <= j < k ==> !(ts[j].depth == 0 && ts[j].lower in words)
    decreases |ts| - i
  {
    if i == |ts| || (ts[i].depth == 0 && ts[i].lower in words) then i else FindTop(ts, words, i + 1)
  }

  lemma {:induction false} FindInTop(ts: seq<Token>, words: seq<string>, i: nat)
    requires i <= |ts|
    ensures var k, top := FindTop(ts, words, i), Top(ts[i..]);
            var j := FindWord(top, words, 0);
            if k == |ts| then j == |top| else j < |top| && top[j] == ts[k] && top[j + 1..] == Top(ts[k + 1..])
    decreases |ts| - i
  {
    hide FindTop, FindWord, Top;
    FindTopStep(ts, words, i);
    if i == |ts| {
      assert ts[i..] == [];
      assert Top([]) == [] by { NoTop(); }
      FindNothing(words);
    } else {
      TopStep(ts, i);
      if ts[i].depth != 0 {
        assert [] + Top(ts[i + 1..]) == Top(ts[i + 1..]);
        FindInTop(ts, words, i + 1);
      } else if ts[i].lower in words {
        FindAtFirst(ts[i], Top(ts[i + 1..]), words);
      } else {
        FindInTop(ts, words, i + 1);
        FindPastFirst(ts[i], Top(ts[i + 1..]), words, 0);
      }
    }
  }

  lemma NoTop()
    ensures Top([]) == []
  {
  }

  lemma FindNothing(words: seq<string>)
    ensures FindWord([], words, 0) == 0
  {
  }

  lemma FindTopStep(ts: seq<Token>, words: seq<string>, i: nat)
    requires i <= |ts|
    ensures FindTop(ts, words, i) == if i == |ts| || (ts[i].depth == 0 && ts[i].lower in words) then i else FindTop(ts, words, i + 1)
  {
  }

  lemma TopStep(ts: seq<Token>, i: nat)
    requires i < |ts|
    ensures Top(ts[i..]) == (if ts[i].depth == 0 then [ts[i]] else []) + Top(ts[i + 1..])
  {
    assert ts[i..][0] == ts[i] && ts[i..][1..] == ts[i + 1..];
  }

  lemma FindAtFirst(t: Token, rest: seq<Token>, words: seq<string>)
    requires t.lower in words
    ensures FindWord([t] + rest, words, 0) == 0 && ([t] + rest)[1..] == rest
  {
  }

  lemma {:induction false} FindPastFirst(t: Token, rest: seq<Token>, words: seq<string>, i: nat)
    requires t.lower !in words && i <= |rest|
    ensures FindWord([t] + rest, words, i + 1) == FindWord(rest, words, i) + 1
    ensures i == 0 ==> FindWord([t] + rest, words, 0) == FindWord(rest, words, 0) + 1
    ensures forall j :: 0 <= j < |rest| ==> ([t] + rest)[j + 1] == rest[j] && ([t] + rest)[j + 2..] == rest[j + 1..]
    decreases |rest| - i
  {
    var all := [t] + rest;
    forall j | 0 <= j < |rest| ensures all[j + 1] == rest[j] && all[j + 2..] == rest[j + 1..] {
    }
    if i < |rest| {
      assert all[i + 1] == rest[i];
      FindPastFirst(t, rest, words, i + 1);
    }
  }

  // ------------------------------------------------------------------
  // The condition, before and after.

  ghost predicate ParensByName(ts: seq<Token>) {
    forall k :: 0 <= k < |ts| ==> ts[k].text != "" && (ts[k].text[0] == '(' ==> ts[k].lower == "(") && (ts[k].text[0] == ')' ==> ts[k].lower == ")")
  }

  lemma {:induction false} LexedParens(d: Dialect, s: string, i: nat, depth: nat, executable: nat)
    requires i <= |s| && LexFrom(d, s, i, depth, executable).Ok?
    ensures ParensByName(LexFrom(d, s, i, depth, executable).value)
    decreases |s| - i
  {
    hide Scan;
    if i < |s| {
      match Scan(d, s, i, executable) {
        case Skip(next, executable') => LexedParens(d, s, next, depth, executable');
        case Emit(next, lower, _, _) =>
          LexedParens(d, s, next, DepthAfter(s[i], depth), executable);
          assert s[i..next][0] == s[i];
          ParenByte(d, s, i, executable);
      }
    }
  }

  lemma ParenByte(d: Dialect, s: string, i: nat, executable: nat)
    requires i < |s| && Scan(d, s, i, executable).Emit?
    ensures s[i] == '(' ==> Scan(d, s, i, executable).lower == "("
    ensures s[i] == ')' ==> Scan(d, s, i, executable).lower == ")"
  {
    hide CommentStep, LineEnd, DollarStep, StringStep, QuotedStep, WordStep;
    assert s[i..i + 1] == [s[i]];
  }

  lemma FoundIsPlain(ts: seq<Token>, k: nat, words: seq<string>)
    requires ParensByName(ts) && k < |ts| && ts[k].lower in words && "(" !in words && ")" !in words
    ensures PlainToken(ts[k])
  {
  }

  /** The bytes between the WHERE and what ends the condition. */
  function Between(raw: string, ts: seq<Token>, w: nat, q: nat): string
    requires w < q <= |ts|
  {
    Text(raw, ts[w].end, if q < |ts| then ts[q].start else |raw|)
  }

  lemma ParensAreNoWords()
    ensures "(" !in WHERE_WORD && ")" !in WHERE_WORD && "(" !in TAIL_WORDS && ")" !in TAIL_WORDS
  {
  }

  /** The bytes between two words that are no parentheses lex to the tokens between them. */
  lemma BetweenReads(d: Dialect, raw: string, ts: seq<Token>, w: nat, q: nat)
    requires PlainComments(d) && Lex(d, raw) == Ok(ts) && w < q <= |ts|
    requires ts[w].depth == 0 && PlainToken(ts[w]) && (q < |ts| ==> ts[q].depth == 0 && PlainToken(ts[q]))
    ensures ts[w].end <= |raw| && Lex(d, Between(raw, ts, w, q)).Ok?
    ensures MoveAll(Lex(d, Between(raw, ts, w, q)).value, ts[w].end) == ts[w + 1..q]
  {
    hide Scan, PlainToken;
    WholeInOrder(d, raw);
    AfterPlain(d, raw, 0, 0, w);
    var from, rest := ts[w].end, ts[w + 1..];
    var end := if q < |ts| then ts[q].start else |raw|;
    TokensInOrder(d, raw, from, 0, 0);
    if q < |ts| {
      assert rest[q - w - 1] == ts[q];
    }
    LexWindow(d, raw, from, 0, from, end, q - w - 1);
    assert rest[..q - w - 1] == ts[w + 1..q];
    assert Between(raw, ts, w, q) == raw[from..end];
  }

  /** What the search takes for the WHERE of the statement, and for what ends its condition; quoted or not. */
  ghost predicate Stands(ts: seq<Token>, w: nat, q: nat) {
    && w < q <= |ts| && w == FindTop(ts, WHERE_WORD, 0) && q == FindTop(ts, TAIL_WORDS, w + 1)
    && ts[w].depth == 0 && PlainToken(ts[w])
    && (q < |ts| ==> ts[q].depth == 0 && PlainToken(ts[q]))
  }

  lemma TargetCondition(info: Info, target: Target)
    requires BackupTargetOf(info) == Some(target) && !WholeTable(info)
    ensures FindWord(Top(info.tokens), WHERE_WORD, 0) < |Top(info.tokens)| && target.condition == ConditionIn(info.raw, Top(info.tokens))
  {
    hide FindWord, CountWord, Top, ConditionIn;
  }

  lemma WhereStands(ts: seq<Token>) returns (w: nat, q: nat)
    requires ParensByName(ts) && FindWord(Top(ts), WHERE_WORD, 0) < |Top(ts)|
    ensures Stands(ts, w, q)
    ensures var top := Top(ts);
            var j := FindWord(top, WHERE_WORD, 0);
            var k := FindWord(top, TAIL_WORDS, j + 1);
            top[j] == ts[w] && (k < |top| <==> q < |ts|) && (k < |top| ==> top[k] == ts[q])
  {
    hide FindTop, FindWord, PlainToken, Top, ParensByName;
    ParensAreNoWords();
    assert ts[0..] == ts;
    FindInTop(ts, WHERE_WORD, 0);
    w := FindTop(ts, WHERE_WORD, 0);
    FoundIsPlain(ts, w, WHERE_WORD);
    FindInTop(ts, TAIL_WORDS, w + 1);
    q := FindTop(ts, TAIL_WORDS, w + 1);
    if q < |ts| {
      FoundIsPlain(ts, q, TAIL_WORDS);
    }
    FindSuffix(Top(ts), TAIL_WORDS, FindWord(Top(ts), WHERE_WORD, 0) + 1);
  }

  lemma ConditionStands(d: Dialect, info: Info, target: Target) returns (w: nat, q: nat)
    requires Lex(d, info.raw) == Ok(info.tokens)
    requires BackupTargetOf(info) == Some(target) && !WholeTable(info)
    ensures Stands(info.tokens, w, q)
    ensures target.condition == TrimRight(TrimSpace(Between(info.raw, info.tokens, w, q)))
  {
    hide FindTop, FindWord, TrimSpace, TrimRight, PlainToken, Top, ParensByName, Lex, BackupTargetOf, Text;
    LexedAll(d, info.raw);
    TargetCondition(info, target);
    w, q := WhereStands(info.tokens);
  }

  lemma LexedAll(d: Dialect, s: string)
    requires Lex(d, s).Ok?
    ensures ParensByName(Lex(d, s).value)
  {
    LexedParens(d, s, 0, 0, 0);
  }

  /** Searching a suffix finds the same token. */
  lemma {:induction false} FindSuffix(top: seq<Token>, words: seq<string>, i: nat)
    requires i <= |top|
    ensures FindWord(top, words, i) == i + FindWord(top[i..], words, 0)
    ensures FindWord(top[i..], words, 0) < |top[i..]| ==> top[FindWord(top, words, i)] == top[i..][FindWord(top[i..], words, 0)]
    decreases |top| - i
  {
    if i < |top| && top[i].lower !in words {
      FindSuffix(top, words, i + 1);
      assert top[i..] == [top[i]] + top[i + 1..];
      FindPastFirst(top[i], top[i + 1..], words, 0);
    } else if i < |top| {
      assert top[i..][0] == top[i];
    }
  }

  /** The condition lexes, alone, to the tokens it has in the statement. */
  ghost predicate ReadsAlike(d: Dialect, info: Info, condition: string, w: nat, q: nat)
    requires Stands(info.tokens, w, q)
  {
    var x := Between(info.raw, info.tokens, w, q);
    Lex(d, condition).Ok? && MoveAll(Lex(d, condition).value, info.tokens[w].end + TrimLow(x)) == info.tokens[w + 1..q]
  }

  /** Trimming the condition's text cuts into none of its tokens. */
  ghost predicate CutsNothing(info: Info, w: nat, q: nat)
    requires Stands(info.tokens, w, q)
  {
    var x, from := Between(info.raw, info.tokens, w, q), info.tokens[w].end;
    Inside(info.tokens[w + 1..q], from + TrimLow(x), from + KeptTo(x))
  }

  lemma TrimmedReads(d: Dialect, info: Info, w: nat, q: nat)
    requires PlainComments(d) && Lex(d, info.raw) == Ok(info.tokens) && Stands(info.tokens, w, q)
    ensures CutsNothing(info, w, q) <==> ReadsAlike(d, info, TrimRight(TrimSpace(Between(info.raw, info.tokens, w, q))), w, q)
  {
    hide Lex, TrimSpace, TrimRight, KeptTo, TrimLow, Inside, MoveAll, Between, FindTop;
    var ts := info.tokens;
    var x, from := Between(info.raw, ts, w, q), ts[w].end;
    var condition := TrimRight(TrimSpace(x));
    BetweenReads(d, info.raw, ts, w, q);
    TrimRightAgrees(d, x);
    MovedInside(Lex(d, x).value, from, ts[w + 1..q], TrimLow(x), KeptTo(x));
    if Lex(d, condition).Ok? {
      MovedAlike(Lex(d, condition).value, TrimLow(x), from, Lex(d, x).value, ts[w + 1..q]);
    }
  }

  /** Main result: read on its own, the condition handed to the backup's SELECT has exactly the tokens it
      has in the statement, unless the trimming cut into one of them. */
  lemma ConditionReadsAlike(d: Dialect, info: Info, target: Target) returns (w: nat, q: nat)
    requires PlainComments(d) && Lex(d, info.raw) == Ok(info.tokens)
    requires BackupTargetOf(info) == Some(target) && !WholeTable(info)
    ensures Stands(info.tokens, w, q)
    ensures ReadsAlike(d, info, target.condition, w, q) <==> CutsNothing(info, w, q)
  {
    hide *;
    w, q := ConditionStands(d, info, target);
    TrimmedReads(d, info, w, q);
  }

  lemma MovedInside(us: seq<Token>, k: nat, mine: seq<Token>, lo: nat, hi: nat)
    requires MoveAll(us, k) == mine
    ensures Inside(us, lo, hi) <==> Inside(mine, k + lo, k + hi)
  {
    assert |us| == |mine|;
    forall i | 0 <= i < |us| ensures mine[i] == Move(us[i], k) {
    }
  }

  lemma MovedAlike(vs: seq<Token>, lo: nat, k: nat, us: seq<Token>, mine: seq<Token>)
    requires MoveAll(us, k) == mine
    ensures MoveAll(vs, lo) == us <==> MoveAll(vs, k + lo) == mine
  {
    MoveTwice(vs, lo, k);
    if MoveAll(vs, k + lo) == mine {
      MoveInjective(MoveAll(vs, lo), us, k);
    }
  }

  // ------------------------------------------------------------------
  // ASCII statements.

  /** Only a ';' token ends in ';'. */
  ghost predicate SemicolonsStand(s: string, ts: seq<Token>) {
    forall k :: 0 <= k < |ts| ==> ts[k].start < ts[k].end <= |s| && (s[ts[k].end - 1] == ';' ==> ts[k].text == ";")
  }

  lemma {:induction false} LexedSemicolons(d: Dialect, s: string, i: nat, depth: nat, executable: nat)
    requires i <= |s| && LexFrom(d, s, i, depth, executable).Ok?
    ensures SemicolonsStand(s, LexFrom(d, s, i, depth, executable).value)
    decreases |s| - i
  {
    hide Scan;
    if i < |s| {
      match Scan(d, s, i, executable) {
        case Skip(next, executable') => LexedSemicolons(d, s, next, depth, executable');
        case Emit(next, _, _, _) =>
          LexedSemicolons(d, s, next, DepthAfter(s[i], depth), executable);
          SemicolonLast(d, s, i, executable);
      }
    }
  }

  lemma SemicolonLast(d: Dialect, s: string, i: nat, executable: nat)
    requires i < |s| && Scan(d, s, i, executable).Emit?
    ensures var next := Scan(d, s, i, executable).next; s[next - 1] == ';' ==> s[i..next] == ";"
  {
    hide ToLower, BareName, DollarStep, Lexer.Find, CommentStep, LineEnd;
    if s[i] == '$' && DollarEnd(s, i, i + 1).Some? {
      DollarEdges(s, i, DollarEnd(s, i, i + 1).value);
    }
  }

  /** In an ASCII statement whose condition does not end in a ';', the trimming cuts nothing. */
  lemma AsciiConditionReadsAlike(d: Dialect, info: Info, target: Target) returns (w: nat, q: nat)
    requires PlainComments(d) && Lex(d, info.raw) == Ok(info.tokens)
    requires BackupTargetOf(info) == Some(target) && !WholeTable(info)
    requires forall k :: 0 <= k < |info.raw| ==> info.raw[k] < '\U{80}'
    ensures Stands(info.tokens, w, q) && (info.tokens[q - 1].text != ";" ==> ReadsAlike(d, info, target.condition, w, q))
  {
    hide *;
    w, q := ConditionReadsAlike(d, info, target);
    StandsInOrder(info.tokens, w, q);
    if info.tokens[q - 1].text != ";" {
      AsciiCutsNothing(d, info, w, q);
    }
  }

  lemma StandsInOrder(ts: seq<Token>, w: nat, q: nat)
    requires Stands(ts, w, q)
    ensures w < q <= |ts|
  {
  }

  lemma AsciiCutsNothing(d: Dialect, info: Info, w: nat, q: nat)
    requires PlainComments(d) && Lex(d, info.raw) == Ok(info.tokens) && Stands(info.tokens, w, q)
    requires forall k :: 0 <= k < |info.raw| ==> info.raw[k] < '\U{80}'
    requires info.tokens[q - 1].text != ";"
    ensures CutsNothing(info, w, q)
  {
    hide Lex, KeptTo, TrimLow, Inside, MoveAll, Between, FindTop, SolidEdges, SemicolonsStand;
    BetweenReads(d, info.raw, info.tokens, w, q);
    LexedSemicolonsAll(d, info.raw);
    WholeEdges(d, info.raw);
    WholeInOrder(d, info.raw);
    CutsNoToken(d, info.raw, info.tokens, w, q);
  }

  lemma LexedSemicolonsAll(d: Dialect, s: string)
    requires Lex(d, s).Ok?
    ensures SemicolonsStand(s, Lex(d, s).value)
  {
    LexedSemicolons(d, s, 0, 0, 0);
  }

  lemma CutsNoToken(d: Dialect, raw: string, ts: seq<Token>, w: nat, q: nat)
    requires w < q <= |ts| && ts[w].end <= |raw| && Lex(d, Between(raw, ts, w, q)).Ok?
    requires MoveAll(Lex(d, Between(raw, ts, w, q)).value, ts[w].end) == ts[w + 1..q]
    requires SolidEdges(raw, ts) && SemicolonsStand(raw, ts)
    requires (forall k :: 0 <= k < |raw| ==> raw[k] < '\U{80}') && ts[q - 1].text != ";"
    requires ts[w].end <= (if q < |ts| then ts[q].start else |raw|) <= |raw|
    ensures var x := Between(raw, ts, w, q); Inside(ts[w + 1..q], ts[w].end + TrimLow(x), ts[w].end + KeptTo(x))
  {
    hide Lex, KeptTo, TrimLow, InOrder, MarginByte, Text, SolidEdges, SemicolonsStand;
    var x, from, mine := Between(raw, ts, w, q), ts[w].end, ts[w + 1..q];
    var us := Lex(d, x).value;
    WholeInOrder(d, x);
    SameBytes(raw, ts, w, q);
    forall k | 0 <= k < |mine| ensures from + TrimLow(x) <= mine[k].start && mine[k].end <= from + KeptTo(x) {
      assert mine[k] == Move(us[k], from) && mine[k] == ts[w + 1 + k];
      StartsInOrder(x, us, k);
      StartsAt(raw, ts, w + 1 + k);
      StartKept(x, us[k].start);
      var last := |mine| - 1;
      assert mine[last] == Move(us[last], from) && mine[last] == ts[q - 1];
      StartsInOrder(x, us, last);
      EndsAt(raw, ts, q - 1);
      EndKept(x, us[last].end);
      EndsInOrder(x, us, k, last);
    }
  }

  lemma {:induction false} EndsInOrder(s: string, ts: seq<Token>, i: nat, j: nat)
    requires InOrder(s, 0, ts) && i <= j < |ts|
    ensures ts[i].end <= ts[j].end
    decreases j - i
  {
    if i < j {
      StartsInOrder(s, ts, i);
      StartsInOrder(s, ts, i + 1);
      EndsInOrder(s, ts, i + 1, j);
    }
  }

  lemma SameBytes(raw: string, ts: seq<Token>, w: nat, q: nat)
    requires w < q <= |ts| && ts[w].end <= (if q < |ts| then ts[q].start else |raw|) <= |raw|
    ensures var x := Between(raw, ts, w, q); ts[w].end + |x| <= |raw| && forall k :: 0 <= k < |x| ==> x[k] == raw[ts[w].end + k]
  {
  }

  lemma StartsAt(raw: string, ts: seq<Token>, k: nat)
    requires SolidEdges(raw, ts) && SemicolonsStand(raw, ts) && k < |ts|
    requires forall i :: 0 <= i < |raw| ==> raw[i] < '\U{80}'
    ensures ts[k].start < ts[k].end <= |raw| && !AsciiSpace(raw[ts[k].start]) && raw[ts[k].start] < '\U{80}'
  {
  }

  lemma EndsAt(raw: string, ts: seq<Token>, k: nat)
    requires SolidEdges(raw, ts) && SemicolonsStand(raw, ts) && k < |ts| && ts[k].text != ";"
    requires forall i :: 0 <= i < |raw| ==> raw[i] < '\U{80}'
    ensures ts[k].start < ts[k].end <= |raw| && !MarginByte(raw[ts[k].end - 1])
  {
  }

  lemma StartKept(x: string, start: nat)
    requires start < |x| && !AsciiSpace(x[start]) && x[start] < '\U{80}'
    ensures TrimLow(x) <= start
  {
    hide TrimLow;
    LowMargin(x);
  }

  lemma EndKept(x: string, end: nat)
    requires 0 < end <= |x| && !MarginByte(x[end - 1])
    ensures end <= KeptTo(x)
  {
    hide KeptTo, TrimLow, MarginByte;
    KeptText(x);
  }

  lemma LowMargin(x: string)
    ensures forall k :: 0 <= k < TrimLow(x) ==> AsciiSpace(x[k]) || x[k] >= '\U{80}'
  {
  }

  // ------------------------------------------------------------------
  // The statement's own condition.

  predicate Spelled(t: Token, words: seq<string>) {
    t.depth == 0 && t.lower in words
  }

  /** The statement's WHERE, and the word that begins the clause after its condition or the end of the statement:
      where the grammar of the database puts them, which no reading of single tokens tells. */
  ghost predicate Clauses(ts: seq<Token>, w: nat, q: nat) {
    && w < q <= |ts| && Spelled(ts[w], WHERE_WORD) && (q < |ts| ==> Spelled(ts[q], TAIL_WORDS))
  }

  /** How a token that is no keyword comes to be spelled like one. */
  datatype Guise = QuotedName | DottedName | PlainName

  predicate AfterDot(ts: seq<Token>, k: nat)
    requires k < |ts|
  {
    k > 0 && ts[k - 1].depth == 0 && ts[k - 1].text == "."
  }

  function GuiseOf(ts: seq<Token>, k: nat): Guise
    requires k < |ts|
  {
    if ts[k].quoted then QuotedName else if AfterDot(ts, k) then DottedName else PlainName
  }

  /** Between i and k some top-level token in this guise is spelled like one of the words. */
  ghost predicate Misleads(ts: seq<Token>, words: seq<string>, i: nat, k: nat, guise: Guise)
    requires k <= |ts|
  {
    exists j :: i <= j < k && Spelled(ts[j], words) && GuiseOf(ts, j) == guise
  }

  ghost predicate NothingMisleads(ts: seq<Token>, words: seq<string>, i: nat, k: nat)
    requires k <= |ts|
  {
    forall guise :: !Misleads(ts, words, i, k, guise)
  }

  /** The search stops at k exactly when nothing before k is spelled like what it looks for. */
  lemma FindsExactly(ts: seq<Token>, words: seq<string>, i: nat, k: nat)
    requires i <= k <= |ts| && (k < |ts| ==> Spelled(ts[k], words))
    ensures FindTop(ts, words, i) == k <==> NothingMisleads(ts, words, i, k)
  {
    hide GuiseOf;
    var f := FindTop(ts, words, i);
    if f < k {
      assert Spelled(ts[f], words);
      assert Misleads(ts, words, i, k, GuiseOf(ts, f));
    }
    forall guise | f == k ensures !Misleads(ts, words, i, k, guise) {
    }
  }

  /** Main result: the condition handed over is the trimmed text between what the search takes for the WHERE and for the word
      after its condition. These are the statement's own if and only if no top-level token is spelled "where" before its WHERE and
      none of the four words stands between its WHERE and the end of its condition: quoted, after a dot, or bare. */
  lemma OwnClausesExactly(d: Dialect, info: Info, target: Target, w0: nat, q0: nat) returns (w: nat, q: nat)
    requires Lex(d, info.raw) == Ok(info.tokens)
    requires BackupTargetOf(info) == Some(target) && !WholeTable(info) && Clauses(info.tokens, w0, q0)
    ensures Stands(info.tokens, w, q) && target.condition == TrimRight(TrimSpace(Between(info.raw, info.tokens, w, q)))
    ensures w == w0 && q == q0 <==> NothingMisleads(info.tokens, WHERE_WORD, 0, w0) && NothingMisleads(info.tokens, TAIL_WORDS, w0 + 1, q0)
  {
    hide NothingMisleads, FindTop, BackupTargetOf, Lex, Between, PlainToken, TrimRight, TrimSpace, Spelled;
    w, q := ConditionStands(d, info, target);
    ClausesSpelled(info.tokens, w0, q0);
    FindsExactly(info.tokens, WHERE_WORD, 0, w0);
    FindsExactly(info.tokens, TAIL_WORDS, w0 + 1, q0);
  }

  lemma ClausesSpelled(ts: seq<Token>, w: nat, q: nat)
    requires Clauses(ts, w, q)
    ensures w < q <= |ts| && Spelled(ts[w], WHERE_WORD) && (q < |ts| ==> Spelled(ts[q], TAIL_WORDS))
  {
  }

  /** The condition lexes, alone, to the tokens between the statement's WHERE and the clause after it. */
  ghost predicate SelectsBy(d: Dialect, info: Info, condition: string, w: nat, q: nat)
    requires w < q <= |info.tokens|
  {
    && Lex(d, condition).Ok?
    && exists k :: MoveAll(Lex(d, condition).value, k) == info.tokens[w + 1..q]
  }

  /** Main result: an ASCII statement whose condition does not end in a ';' is backed up by its own condition,
      provided nothing misleads the search for its WHERE and for the clause after it. */
  lemma BacksUpOwnCondition(d: Dialect, info: Info, target: Target, w0: nat, q0: nat)
    requires PlainComments(d) && Lex(d, info.raw) == Ok(info.tokens)
    requires BackupTargetOf(info) == Some(target) && !WholeTable(info) && Clauses(info.tokens, w0, q0)
    requires forall k :: 0 <= k < |info.raw| ==> info.raw[k] < '\U{80}'
    requires NothingMisleads(info.tokens, WHERE_WORD, 0, w0) && NothingMisleads(info.tokens, TAIL_WORDS, w0 + 1, q0)
    requires info.tokens[q0 - 1].text != ";"
    ensures SelectsBy(d, info, target.condition, w0, q0)
  {
    hide NothingMisleads, FindTop, BackupTargetOf, Lex, MoveAll, Between, TrimLow, PlainToken, Spelled;
    ClausesSpelled(info.tokens, w0, q0);
    var w, q := AsciiConditionReadsAlike(d, info, target);
    FindsExactly(info.tokens, WHERE_WORD, 0, w0);
    FindsExactly(info.tokens, TAIL_WORDS, w0 + 1, q0);
  }

  /** Where the words are reserved a bare one is no name, so only quoted and dotted names can mislead. */
  ghost predicate NoPlainName(ts: seq<Token>, words: seq<string>, i: nat, k: nat)
    requires k <= |ts|
  {
    !Misleads(ts, words, i, k, PlainName)
  }

  lemma ReservedWordsExactly(ts: seq<Token>, w0: nat, q0: nat)
    requires Clauses(ts, w0, q0) && NoPlainName(ts, WHERE_WORD, 0, w0) && NoPlainName(ts, TAIL_WORDS, w0 + 1, q0)
    ensures FindTop(ts, WHERE_WORD, 0) == w0 && FindTop(ts, TAIL_WORDS, w0 + 1) == q0
       <==> && !Misleads(ts, WHERE_WORD, 0, w0, QuotedName) && !Misleads(ts, WHERE_WORD, 0, w0, DottedName)
            && !Misleads(ts, TAIL_WORDS, w0 + 1, q0, QuotedName) && !Misleads(ts, TAIL_WORDS, w0 + 1, q0, DottedName)
  {
    hide Misleads, FindTop, Spelled;
    ClausesSpelled(ts, w0, q0);
    FindsExactly(ts, WHERE_WORD, 0, w0);
    FindsExactly(ts, TAIL_WORDS, w0 + 1, q0);
    ThreeGuises(ts, WHERE_WORD, 0, w0);
    ThreeGuises(ts, TAIL_WORDS, w0 + 1, q0);
  }

  lemma ThreeGuises(ts: seq<Token>, words: seq<string>, i: nat, k: nat)
    requires k <= |ts|
    ensures NothingMisleads(ts, words, i, k)
       <==> !Misleads(ts, words, i, k, QuotedName) && !Misleads(ts, words, i, k, DottedName) && !Misleads(ts, words, i, k, PlainName)
  {
    hide Misleads;
    if !NothingMisleads(ts, words, i, k) {
      var guise :| Misleads(ts, words, i, k, guise);
      assert guise.QuotedName? || guise.DottedName? || guise.PlainName?;
    }
  }

  // ------------------------------------------------------------------
  // Which statements are backed up, by their words.

  predicate JoinsAt(top: seq<Token>, k: int) {
    0 <= k < |top| && (top[k].lower == "join" || top[k].lower == "using")
  }

  predicate FromAt(top: seq<Token>, k: int) {
    0 <= k < |top| && top[k].lower == "from"
  }

  /** A word that keeps a DELETE without WHERE from being backed up as the whole table. */
  predicate StopsWholeTable(w: string) {
    w == "order" || w == "limit" || w == "returning" || w == "option" || w == "using" || w == "where"
  }

  lemma {:induction false} CountNone(top: seq<Token>, n: nat)
    requires n <= |top|
    ensures CountWord(top, "from", n) == 0 <==> forall k :: 0 <= k < n ==> !FromAt(top, k)
    decreases n
  {
    if n > 0 {
      assert FromAt(top, n - 1) <==> top[n - 1].lower == "from";
      CountNone(top, n - 1);
    }
  }

  lemma {:induction false} CountOne(top: seq<Token>, n: nat)
    requires 2 <= n <= |top| && FromAt(top, 1)
    ensures CountWord(top, "from", n) == 1 <==> forall k :: 0 <= k < n && k != 1 ==> !FromAt(top, k)
    ensures CountWord(top, "from", n) > 0
    decreases n
  {
    if n == 2 {
      CountNone(top, 1);
      assert CountWord(top, "from", 2) == CountWord(top, "from", 1) + 1;
      assert !FromAt(top, 0) <==> CountWord(top, "from", 1) == 0;
    } else {
      assert FromAt(top, n - 1) <==> top[n - 1].lower == "from";
      CountOne(top, n - 1);
    }
  }

  lemma Searched(top: seq<Token>)
    ensures FindWord(top, JOIN_WORDS, 0) == |top| <==> forall k :: !JoinsAt(top, k)
    ensures FindWord(top, WHERE_WORD, 0) == |top| <==> forall k :: 0 <= k < |top| ==> top[k].lower != "where"
    ensures |top| >= 2 ==> (FindWord(top, WHOLE_TABLE_STOPS, 2) == |top| <==> forall k :: 2 <= k < |top| ==> !StopsWholeTable(top[k].lower))
  {
    hide FindWord;
    assert forall w :: w in JOIN_WORDS <==> w == "join" || w == "using";
    assert forall w :: w in WHERE_WORD <==> w == "where";
    assert forall w :: w in WHOLE_TABLE_STOPS <==> StopsWholeTable(w);
    if FindWord(top, JOIN_WORDS, 0) < |top| {
      assert JoinsAt(top, FindWord(top, JOIN_WORDS, 0));
    }
  }

  /** One table is written, with a WHERE or as a DELETE. */
  predicate WritesOneTable(info: Info) {
    !info.isScript && |info.tables| == 1 && (info.command == Delete || (info.command == Update && info.hasWhere))
  }

  /** Outside parentheses nothing is joined, an UPDATE has no FROM and a DELETE one, its second word. */
  ghost predicate PlainShape(info: Info, top: seq<Token>) {
    && |top| >= 2 && top[0].lower != "with" && (forall k :: !JoinsAt(top, k))
    && (info.command == Update ==> forall k :: !FromAt(top, k))
    && (info.command == Delete ==> FromAt(top, 1) && forall k :: k != 1 ==> !FromAt(top, k))
  }

  lemma ShapeByWords(info: Info, top: seq<Token>)
    requires info.command == Update || info.command == Delete
    ensures SimpleShape(info, top) <==>
              PlainShape(info, top) && ((exists k :: 0 <= k < |top| && top[k].lower == "where") || (info.command == Delete && !info.hasWhere))
  {
    hide FindWord, CountWord, JoinsAt;
    Searched(top);
    CountNone(top, |top|);
    if |top| >= 2 && FromAt(top, 1) {
      CountOne(top, |top|);
    }
  }

  /** Main result: which statements are backed up, by the words outside parentheses; and a DELETE without WHERE only as the whole
      table, when no ORDER, LIMIT, RETURNING, OPTION, USING or WHERE could leave rows behind. */
  lemma BackedUpExactly(info: Info)
    ensures var top := Top(info.tokens);
            && (!info.hasWhere ==>
                  (BackupTargetOf(info).Some? <==>
                     WritesOneTable(info) && PlainShape(info, top) && forall k :: 2 <= k < |top| ==> !StopsWholeTable(top[k].lower)))
            && (info.hasWhere ==>
                  (BackupTargetOf(info).Some? <==>
                     && WritesOneTable(info) && PlainShape(info, top)
                     && (exists k :: 0 <= k < |top| && top[k].lower == "where") && ConditionIn(info.raw, top) != ""))
            && (BackupTargetOf(info).Some? ==>
                  BackupTargetOf(info).value == Target(if info.command == Delete then DeleteBackup else UpdateBackup, info.tables[0].schema, info.tables[0].name,
                                                       if info.hasWhere then ConditionIn(info.raw, top) else "1=1"))
  {
    hide FindWord, PlainShape, SimpleShape, ConditionIn, StopsWholeTable, Top;
    var top := Top(info.tokens);
    Searched(top);
    if info.command == Update || info.command == Delete {
      ShapeByWords(info, top);
      if SimpleShape(info, top) {
        ShapeIsLong(info, top);
      }
    }
  }

  lemma ShapeIsLong(info: Info, top: seq<Token>)
    requires SimpleShape(info, top)
    ensures |top| >= 2
  {
  }

  predicate EndsCondition(w: string) {
    w == "order" || w == "limit" || w == "returning" || w == "option"
  }

  /** The condition reaches from the first WHERE outside parentheses to the first word after it that ends one, or to the end of the text. */
  lemma ConditionByWords(raw: string, top: seq<Token>, where: nat, stop: nat)
    requires where < stop <= |top| && top[where].lower == "where" && forall k :: 0 <= k < where ==> top[k].lower != "where"
    requires (forall k :: where < k < stop ==> !EndsCondition(top[k].lower)) && (stop < |top| ==> EndsCondition(top[stop].lower))
    ensures ConditionIn(raw, top) == TrimRight(TrimSpace(Text(raw, top[where].end, if stop < |top| then top[stop].start else |raw|)))
  {
    hide FindWord, TrimRight, TrimSpace;
    assert forall w :: w in WHERE_WORD <==> w == "where";
    assert forall w :: w in TAIL_WORDS <==> EndsCondition(w);
    assert FindWord(top, WHERE_WORD, 0) == where;
    assert FindWord(top, TAIL_WORDS, where + 1) == stop;
  }
}
