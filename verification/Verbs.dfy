/** What a statement is read as, said of its words: the kind of WITH statements and blocks, and what a read-only role may run. */
module Verbs {
  import opened Prelude
  import opened Bytes
  import opened Lexer
  import opened Splitter
  import opened Folder
  import opened Classifier
  import opened Policy

  predicate ReadWord(w: string) {
    w == "select" || w == "values" || w == "table"
  }

  predicate WriteWord(w: string) {
    w == "insert" || w == "replace" || w == "upsert" || w == "update" || w == "merge" || w == "delete"
  }

  predicate AdminWord(w: string) {
    || w == "drop" || w == "truncate" || w == "create" || w == "alter" || w == "grant" || w == "revoke"
    || w == "exec" || w == "execute" || w == "call" || w == "backup" || w == "restore" || w == "rename"
  }

  function KindOfWord(w: string): Kind {
    if w == "delete" then Delete
    else if w == "update" || w == "merge" then Update
    else if w == "insert" || w == "replace" || w == "upsert" then Insert
    else Select
  }

  lemma WordKinds(w: string)
    ensures TokenKind(w) == if WriteWord(w) || ReadWord(w) then Some(KindOfWord(w)) else None
    ensures BlockOperation(w) == if AdminWord(w) then Some(DDL) else TokenKind(w)
    ensures WriteWord(w) ==> KindOfWord(w) == Insert || KindOfWord(w) == Update || KindOfWord(w) == Delete
    ensures ReadWord(w) ==> KindOfWord(w) == Select && !WriteWord(w)
  {
  }

  // ------------------------------------------------------------------
  // WITH.

  /** An operation word after the first token that no FOR precedes. */
  predicate Operation(ts: seq<Token>, k: int) {
    0 < k < |ts| && ts[k - 1].lower != "for" && (ReadWord(ts[k].lower) || WriteWord(ts[k].lower))
  }

  predicate WriteAt(ts: seq<Token>, k: int) {
    Operation(ts, k) && WriteWord(ts[k].lower)
  }

  predicate OuterAt(ts: seq<Token>, k: int) {
    Operation(ts, k) && ts[k].depth == 0
  }

  ghost predicate LastWrite(ts: seq<Token>, k: int) {
    WriteAt(ts, k) && forall j :: k < j < |ts| ==> !WriteAt(ts, j)
  }

  ghost predicate LastOuter(ts: seq<Token>, k: int) {
    OuterAt(ts, k) && forall j :: k < j < |ts| ==> !OuterAt(ts, j)
  }

  lemma WithStep(ts: seq<Token>, i: nat, risk: Kind, command: Kind)
    requires 0 < i < |ts|
    ensures WithKinds(ts, i, risk, command)
         == WithKinds(ts, i + 1, if WriteAt(ts, i) then KindOfWord(ts[i].lower) else risk, if OuterAt(ts, i) then KindOfWord(ts[i].lower) else command)
    ensures WriteAt(ts, i) ==> KindOfWord(ts[i].lower) == Insert || KindOfWord(ts[i].lower) == Update || KindOfWord(ts[i].lower) == Delete
    ensures OuterAt(ts, i) && !WriteAt(ts, i) ==> KindOfWord(ts[i].lower) == Select
  {
    hide ReadWord, WriteWord, AdminWord, KindOfWord, TokenKind;
    WordKinds(ts[i].lower);
  }

  lemma {:induction false} WithFrom(ts: seq<Token>, i: nat, risk: Kind, command: Kind)
    requires i > 0 && (risk == Select || risk == Insert || risk == Update || risk == Delete)
    ensures var (kind, outer) := WithKinds(ts, i, risk, command);
            && ((forall k :: i <= k < |ts| ==> !WriteAt(ts, k)) ==> kind == if risk == Select then outer else risk)
            && ((exists k :: i <= k < |ts| && WriteAt(ts, k)) ==> kind == Insert || kind == Update || kind == Delete)
            && (forall k :: i <= k < |ts| && LastWrite(ts, k) ==> kind == KindOfWord(ts[k].lower))
            && ((forall k :: i <= k < |ts| ==> !OuterAt(ts, k)) ==> outer == command)
            && (forall k :: i <= k < |ts| && LastOuter(ts, k) ==> outer == KindOfWord(ts[k].lower))
    decreases |ts| - i
  {
    hide KindOfWord, WriteAt, OuterAt, WithKinds;
    if i < |ts| {
      WithStep(ts, i, risk, command);
      WithFrom(ts, i + 1, if WriteAt(ts, i) then KindOfWord(ts[i].lower) else risk, if OuterAt(ts, i) then KindOfWord(ts[i].lower) else command);
    } else {
      NothingLeft(ts, i, risk, command);
    }
  }

  lemma NothingLeft(ts: seq<Token>, i: nat, risk: Kind, command: Kind)
    requires i > 0 && i >= |ts|
    ensures WithKinds(ts, i, risk, command) == (if risk == Select then command else risk, command)
  {
  }

  lemma {:induction false} WithOnlyReads(ts: seq<Token>, i: nat)
    requires i > 0 && forall k :: i <= k < |ts| ==> !WriteAt(ts, k)
    ensures WithKinds(ts, i, Select, Select) == (Select, Select)
    decreases |ts| - i
  {
    hide KindOfWord, WriteAt, OuterAt, WithKinds;
    if i < |ts| {
      WithStep(ts, i, Select, Select);
      WithOnlyReads(ts, i + 1);
    } else {
      NothingLeft(ts, i, Select, Select);
    }
  }

  /** Main result: a WITH statement is a write, of the last write's kind, exactly when a write word stands in it that no FOR
      precedes; otherwise it is a read. Its command is the last operation outside parentheses. */
  lemma WithIsItsWrites(ts: seq<Token>)
    requires ts != [] && ts[0].lower == "with"
    ensures var (kind, command) := FirstKinds(ts);
            && (IsWrite(kind) <==> exists k :: 0 < k < |ts| && WriteAt(ts, k))
            && (!IsWrite(kind) ==> kind == Select && command == Select)
            && (forall k :: 0 < k < |ts| && LastWrite(ts, k) ==> kind == KindOfWord(ts[k].lower))
            && (forall k :: 0 < k < |ts| && LastOuter(ts, k) ==> command == KindOfWord(ts[k].lower))
            && ((forall k :: 0 < k < |ts| ==> !OuterAt(ts, k)) ==> command == Select)
  {
    hide WithKinds, Operation, KindOfWord;
    WithOpens(ts);
    WithFrom(ts, 1, Select, Select);
    if forall k :: 1 <= k < |ts| ==> !WriteAt(ts, k) {
      WithOnlyReads(ts, 1);
    }
  }

  lemma WithOpens(ts: seq<Token>)
    requires ts != [] && ts[0].lower == "with"
    ensures FirstKinds(ts) == WithKinds(ts, 1, Select, Select) && !HoldsBlock(ts)
  {
    hide WithKinds, BlockKind;
  }

  // ------------------------------------------------------------------
  // Blocks, and EXPLAIN ANALYZE.

  ghost predicate FirstWrite(ts: seq<Token>, i: nat, k: int) {
    i <= k < |ts| && WriteWord(ts[k].lower) && forall j :: i <= j < k ==> !WriteWord(ts[j].lower)
  }

  predicate Ranked(k: Kind) {
    k == Session || k == Select || k == Insert || k == Update || k == Delete || k == DDL
  }

  lemma BlockStep(ts: seq<Token>, i: nat, best: Kind)
    requires i < |ts| && Ranked(best)
    ensures BlockKind(ts, i, best) == BlockKind(ts, i + 1, Riskier(best, ts[i].lower))
  {
    hide ReadWord, WriteWord, AdminWord, KindOfWord, TokenKind, BlockOperation;
    WordKinds(ts[i].lower);
  }

  /** What a word makes of the riskiest operation so far; the first of several writes stands. */
  function Riskier(best: Kind, w: string): Kind {
    if AdminWord(w) then DDL
    else if WriteWord(w) && (best == Session || best == Select) then KindOfWord(w)
    else if ReadWord(w) && best == Session then Select
    else best
  }

  lemma NoneLeft(ts: seq<Token>, i: nat, best: Kind)
    requires i >= |ts|
    ensures BlockKind(ts, i, best) == best
  {
  }

  ghost predicate SomeAdmin(ts: seq<Token>, i: nat) {
    exists k :: i <= k < |ts| && AdminWord(ts[k].lower)
  }

  ghost predicate SomeWrite(ts: seq<Token>, i: nat) {
    exists k :: i <= k < |ts| && WriteWord(ts[k].lower)
  }

  ghost predicate SomeRead(ts: seq<Token>, i: nat) {
    exists k :: i <= k < |ts| && ReadWord(ts[k].lower)
  }

  lemma NoneBeyond(ts: seq<Token>, i: nat)
    requires i >= |ts|
    ensures !SomeAdmin(ts, i) && !SomeWrite(ts, i) && !SomeRead(ts, i)
  {
  }

  lemma OneWord(ts: seq<Token>, i: nat)
    requires i < |ts|
    ensures SomeAdmin(ts, i) <==> AdminWord(ts[i].lower) || SomeAdmin(ts, i + 1)
    ensures SomeWrite(ts, i) <==> WriteWord(ts[i].lower) || SomeWrite(ts, i + 1)
    ensures SomeRead(ts, i) <==> ReadWord(ts[i].lower) || SomeRead(ts, i + 1)
  {
    hide ReadWord, WriteWord, AdminWord;
    OneAdmin(ts, i);
    OneWrite(ts, i);
    OneRead(ts, i);
  }

  lemma OneAdmin(ts: seq<Token>, i: nat)
    requires i < |ts|
    ensures SomeAdmin(ts, i) <==> AdminWord(ts[i].lower) || SomeAdmin(ts, i + 1)
  {
    hide AdminWord;
  }

  lemma OneWrite(ts: seq<Token>, i: nat)
    requires i < |ts|
    ensures SomeWrite(ts, i) <==> WriteWord(ts[i].lower) || SomeWrite(ts, i + 1)
  {
    hide WriteWord;
  }

  lemma OneRead(ts: seq<Token>, i: nat)
    requires i < |ts|
    ensures SomeRead(ts, i) <==> ReadWord(ts[i].lower) || SomeRead(ts, i + 1)
  {
    hide ReadWord;
  }

  lemma RiskierCases(best: Kind, w: string)
    requires Ranked(best)
    ensures Ranked(Riskier(best, w))
    ensures Riskier(best, w) == DDL <==> best == DDL || AdminWord(w)
    ensures Riskier(best, w) == Session <==> best == Session && !AdminWord(w) && !WriteWord(w) && !ReadWord(w)
    ensures Riskier(best, w) == Select <==> (best == Session || best == Select) && !AdminWord(w) && !WriteWord(w) && (best == Select || ReadWord(w))
    ensures best == Insert || best == Update || best == Delete ==> Riskier(best, w) == if AdminWord(w) then DDL else best
    ensures (best == Session || best == Select) && WriteWord(w) && !AdminWord(w) ==> Riskier(best, w) == KindOfWord(w)
  {
  }

  lemma {:induction false} BlockFrom(ts: seq<Token>, i: nat, best: Kind)
    requires Ranked(best)
    ensures var kind := BlockKind(ts, i, best);
            && Ranked(kind)
            && (kind == DDL <==> best == DDL || SomeAdmin(ts, i))
            && (kind == Session <==> best == Session && !SomeAdmin(ts, i) && !SomeWrite(ts, i) && !SomeRead(ts, i))
            && (kind == Select <==> (best == Session || best == Select) && !SomeAdmin(ts, i) && !SomeWrite(ts, i) && (best == Select || SomeRead(ts, i)))
            && (kind != DDL && (best == Insert || best == Update || best == Delete) ==> kind == best)
            && (kind != DDL && (best == Session || best == Select) ==> forall k :: FirstWrite(ts, i, k) ==> kind == KindOfWord(ts[k].lower))
    decreases |ts| - i
  {
    hide *;
    if i < |ts| {
      var next := Riskier(best, ts[i].lower);
      BlockStep(ts, i, best);
      OneWord(ts, i);
      RiskierCases(best, ts[i].lower);
      BlockFrom(ts, i + 1, next);
      FirstWriteFrom(ts, i);
    } else {
      NoneLeft(ts, i, best);
      NoneBeyond(ts, i);
      NoFirst(ts, i);
    }
  }

  lemma NoFirst(ts: seq<Token>, i: nat)
    requires i >= |ts|
    ensures forall k :: !FirstWrite(ts, i, k)
  {
    hide WriteWord;
  }

  lemma FirstWriteFrom(ts: seq<Token>, i: nat)
    requires i < |ts|
    ensures forall k :: FirstWrite(ts, i, k) ==> i <= k < |ts| && if WriteWord(ts[i].lower) then k == i else FirstWrite(ts, i + 1, k)
  {
    hide WriteWord;
  }

  /** BEGIN, IF, WHILE and ELSE, and an EXPLAIN that names ANALYZE. */
  predicate RunsWhatItHolds(ts: seq<Token>)
    requires ts != []
  {
    var w := ts[0].lower;
    || w == "begin" || w == "if" || w == "while" || w == "else"
    || (w == "explain" && exists k :: 0 < k < |ts| && !ts[k].quoted && (ts[k].lower == "analyze" || ts[k].lower == "analyse"))
  }

  lemma BlockOpens(ts: seq<Token>)
    requires ts != []
    ensures HoldsBlock(ts) <==> RunsWhatItHolds(ts)
    ensures HoldsBlock(ts) ==> FirstKinds(ts) == (BlockKind(ts, 1, Session), BlockKind(ts, 1, Session))
  {
    hide WithKinds, BlockKind;
    if RunsWhatItHolds(ts) && ts[0].lower == "explain" {
      var k :| 0 < k < |ts| && !ts[k].quoted && (ts[k].lower == "analyze" || ts[k].lower == "analyse");
      assert ts[k].Keyword("analyze") || ts[k].Keyword("analyse");
    }
  }

  /** Main result: a block, or an EXPLAIN that runs, is as risky as the riskiest operation in it. */
  lemma BlockIsItsRiskiest(ts: seq<Token>)
    requires ts != [] && RunsWhatItHolds(ts)
    ensures var (kind, command) := FirstKinds(ts);
            && command == kind
            && (kind == DDL <==> SomeAdmin(ts, 1))
            && (IsWrite(kind) <==> SomeAdmin(ts, 1) || SomeWrite(ts, 1))
            && (!SomeAdmin(ts, 1) ==> forall k :: FirstWrite(ts, 1, k) ==> kind == KindOfWord(ts[k].lower))
            && (!IsWrite(kind) ==> kind == if SomeRead(ts, 1) then Select else Session)
  {
    hide BlockKind, SomeAdmin, SomeWrite, SomeRead, FirstWrite, FirstKinds, HoldsBlock, KindOfWord;
    BlockOpens(ts);
    BlockFrom(ts, 1, Session);
  }

  /** A statement counts as DROP, or TRUNCATE, when it opens with the word, or runs what it holds and the word is in it. */
  lemma DropsByWords(number: Numbers, d: Dialect, raw: string, ts: seq<Token>)
    requires ts != []
    ensures ClassifyTokens(number, d, raw, ts).isDrop <==>
              ts[0].lower == "drop" || (RunsWhatItHolds(ts) && exists k :: 0 < k < |ts| && ts[k].lower == "drop")
    ensures ClassifyTokens(number, d, raw, ts).isTruncate <==>
              ts[0].lower == "truncate" || (RunsWhatItHolds(ts) && exists k :: 0 < k < |ts| && ts[k].lower == "truncate")
  {
    hide FirstKinds, HasEffectiveWhere, ExtractTables, OnlyTableVariable, SelectCreates, TouchesSession, ControlsTransaction, HoldsBlock, RunsWhatItHolds;
    BlockOpens(ts);
  }

  // ------------------------------------------------------------------
  // Writes that stay in the session, and reads that create.

  /** The word at i names a table. */
  predicate NamesTable(ts: seq<Token>, i: int) {
    0 <= i < |ts|
    && var w := ts[i].lower;
       var j := if i + 1 < |ts| && ts[i + 1].lower == "table" && w != "table" then i + 2 else i + 1;
       && (w == "from" || w == "join" || w == "update" || w == "into" || w == "truncate" || (w == "table" && i == 0))
       && !(w == "update" && i > 0 && ts[i - 1].lower == "key" && !ts[i - 1].quoted)
       && !(w == "into" && i + 1 < |ts| && (ts[i + 1].lower == "outfile" || ts[i + 1].lower == "dumpfile") && !ts[i + 1].quoted)
       && j < |ts| && ts[j].identifier && ts[j].text != "("
  }

  lemma TableNamed(ts: seq<Token>, i: nat)
    requires i < |ts|
    ensures TableAt(ts, i).Some? <==> NamesTable(ts, i)
  {
    hide DottedEnd, Reserved;
  }

  lemma {:induction false} NoneExtracted(ts: seq<Token>, i: nat)
    ensures ExtractTables(ts, i, {}) == [] <==> forall k :: i <= k < |ts| ==> !NamesTable(ts, k)
    decreases |ts| - i
  {
    hide NamesTable, TableAt;
    if i < |ts| {
      TableNamed(ts, i);
      NoneExtracted(ts, i + 1);
    }
  }

  predicate TargetHere(ts: seq<Token>, kind: Kind, i: int) {
    0 <= i && i + 1 < |ts| && (ts[i].lower == "into" || ts[i].lower == "update" || (ts[i].lower == "from" && kind == Delete))
  }

  /** The word that names the target of a write, the first of its sort, is followed by a variable. */
  ghost predicate TargetsVariable(ts: seq<Token>, kind: Kind) {
    exists i :: TargetHere(ts, kind, i) && (forall j :: 0 <= j < i ==> !TargetHere(ts, kind, j)) && ts[i + 1].text != "" && ts[i + 1].text[0] == '@'
  }

  lemma {:induction false} TargetFound(ts: seq<Token>, kind: Kind, i: nat)
    requires i <= |ts|
    ensures var w := TargetWord(ts, kind, i);
            && (w < |ts| ==> i <= w && TargetHere(ts, kind, w))
            && (forall j :: i <= j < w ==> !TargetHere(ts, kind, j))
    decreases |ts| - i
  {
    if i + 1 < |ts| && TargetWord(ts, kind, i) != i {
      TargetFound(ts, kind, i + 1);
    }
  }

  lemma VariableByWords(ts: seq<Token>, kind: Kind)
    ensures OnlyTableVariable(kind, ExtractTables(ts, 0, {}), ts) <==>
              (kind == Insert || kind == Update || kind == Delete) && (forall k :: 0 <= k < |ts| ==> !NamesTable(ts, k)) && TargetsVariable(ts, kind)
  {
    hide NamesTable, ExtractTables, TargetWord, TargetHere;
    NoneExtracted(ts, 0);
    TargetFound(ts, kind, 0);
    TargetInside(ts, kind);
  }

  lemma TargetInside(ts: seq<Token>, kind: Kind)
    ensures forall i :: TargetHere(ts, kind, i) ==> 0 <= i && i + 1 < |ts|
    ensures forall t: string :: HasPrefix(t, "@") <==> t != "" && t[0] == '@'
  {
    forall t: string ensures HasPrefix(t, "@") <==> t != "" && t[0] == '@' {
      if t != "" && t[0] == '@' {
        assert t[..1] == "@";
      }
    }
  }

  predicate IntoHere(ts: seq<Token>, i: int) {
    0 <= i && i + 1 < |ts| && ts[i].depth == 0 && ts[i].lower == "into" && !ts[i].quoted
  }

  /** The first INTO outside parentheses is followed by something other than a variable. */
  ghost predicate CreatesByInto(ts: seq<Token>) {
    exists i :: IntoHere(ts, i) && (forall j :: 0 <= j < i ==> !IntoHere(ts, j)) && !(ts[i + 1].text != "" && ts[i + 1].text[0] == '@')
  }

  lemma {:induction false} IntoFound(ts: seq<Token>, i: nat)
    requires i <= |ts|
    ensures var w := TopInto(ts, i);
            && (w < |ts| ==> i <= w && IntoHere(ts, w))
            && (forall j :: i <= j < w ==> !IntoHere(ts, j))
    decreases |ts| - i
  {
    if i + 1 < |ts| && TopInto(ts, i) != i {
      IntoFound(ts, i + 1);
    }
  }

  lemma CreatesByWords(ts: seq<Token>)
    ensures SelectCreates(Select, ts) <==> CreatesByInto(ts)
  {
    hide TopInto, IntoHere;
    IntoFound(ts, 0);
    TargetInside(ts, Select);
    IntoInside(ts);
  }

  lemma IntoInside(ts: seq<Token>)
    ensures forall i :: IntoHere(ts, i) ==> 0 <= i && i + 1 < |ts|
  {
  }

  // ------------------------------------------------------------------
  // What a read-only role may run.

  predicate ReadsFirst(w: string) {
    w in {"select", "values", "table", "show", "describe", "desc", "pragma", "fetch"}
  }

  predicate SessionFirst(w: string) {
    w in {"use", "start", "commit", "rollback", "savepoint", "release", "discard", "declare", "print", "open", "close", "deallocate",
          "throw", "raiserror", "return", "break", "continue", "goto", "go", "listen", "unlisten", "notify"}
  }

  ghost predicate OnlyReads(ts: seq<Token>)
    requires ts != []
  {
    var w := ts[0].lower;
    || ReadsFirst(w)
    || (w == "explain" && !RunsWhatItHolds(ts))
    || (w == "with" && forall k :: 0 < k < |ts| ==> !WriteAt(ts, k))
    || (RunsWhatItHolds(ts) && !SomeAdmin(ts, 1) && !SomeWrite(ts, 1) && SomeRead(ts, 1))
  }

  ghost predicate OnlySession(ts: seq<Token>)
    requires ts != []
  {
    var w, next := ts[0].lower, if |ts| > 1 then ts[1].lower else "";
    || SessionFirst(w)
    || (w == "set" && next != "global" && next != "persist" && next != "persist_only")
    || (RunsWhatItHolds(ts) && !SomeAdmin(ts, 1) && !SomeWrite(ts, 1) && !SomeRead(ts, 1))
  }

  /** The statement changes rows, as an INSERT, an UPDATE or a DELETE: by its first word, the last write of a WITH, or the first of a block. */
  ghost predicate WritesAs(ts: seq<Token>, kind: Kind)
    requires ts != []
  {
    || (WriteWord(ts[0].lower) && kind == KindOfWord(ts[0].lower))
    || (ts[0].lower == "with" && exists k :: LastWrite(ts, k) && kind == KindOfWord(ts[k].lower))
    || (RunsWhatItHolds(ts) && !SomeAdmin(ts, 1) && exists k :: FirstWrite(ts, 1, k) && kind == KindOfWord(ts[k].lower))
  }

  /** The statement reads, works on its session, or fills a table variable from no table. */
  ghost predicate Harmless(ts: seq<Token>)
    requires ts != []
  {
    || (OnlyReads(ts) && !CreatesByInto(ts))
    || OnlySession(ts)
    || exists kind :: WritesAs(ts, kind) && (forall k :: 0 <= k < |ts| ==> !NamesTable(ts, k)) && TargetsVariable(ts, kind)
  }

  lemma {:induction false} SomeLastWrite(ts: seq<Token>, n: nat)
    requires n <= |ts| && (exists k :: 0 < k < n && WriteAt(ts, k)) && forall j :: n <= j < |ts| ==> !WriteAt(ts, j)
    ensures exists k :: LastWrite(ts, k)
    decreases n
  {
    hide WriteAt;
    if WriteAt(ts, n - 1) {
      assert LastWrite(ts, n - 1);
    } else {
      SomeLastWrite(ts, n - 1);
    }
  }

  lemma {:induction false} SomeFirstWrite(ts: seq<Token>, i: nat)
    requires SomeWrite(ts, i)
    ensures exists k :: FirstWrite(ts, i, k)
    decreases |ts| - i
  {
    hide WriteWord;
    if WriteWord(ts[i].lower) {
      assert FirstWrite(ts, i, i);
    } else {
      SomeFirstWrite(ts, i + 1);
      var k :| FirstWrite(ts, i + 1, k);
      assert FirstWrite(ts, i, k);
    }
  }

  /** The kind by the first word, before the corrections for variables and for INTO. */
  lemma FirstKindByWords(ts: seq<Token>)
    requires ts != []
    ensures var kind := FirstKinds(ts).0;
            && (kind == Select <==> OnlyReads(ts))
            && (kind == Session <==> OnlySession(ts))
            && (forall k :: (k == Insert || k == Update || k == Delete) ==> (kind == k <==> WritesAs(ts, k)))
            && kind != Unrecognised
  {
    hide *;
    var w := ts[0].lower;
    if w == "with" {
      WithByWords(ts);
    } else if RunsWhatItHolds(ts) {
      BlockByWords(ts);
    } else {
      PlainByWords(ts);
    }
  }

  lemma WithByWords(ts: seq<Token>)
    requires ts != [] && ts[0].lower == "with"
    ensures var kind := FirstKinds(ts).0;
            && (kind == Select <==> OnlyReads(ts)) && kind != Session && !OnlySession(ts) && kind != Unrecognised
            && (forall k :: (k == Insert || k == Update || k == Delete) ==> (kind == k <==> WritesAs(ts, k)))
  {
    hide FirstKinds, WriteAt, OuterAt, KindOfWord, SomeAdmin, SomeWrite, SomeRead, FirstWrite;
    WithIsItsWrites(ts);
    if exists k :: 0 < k < |ts| && WriteAt(ts, k) {
      SomeLastWrite(ts, |ts|);
    }
    forall k | LastWrite(ts, k) ensures 0 < k < |ts| && KindOfWord(ts[k].lower) in {Insert, Update, Delete} {
      WriteInside(ts, k);
    }
  }

  lemma WriteInside(ts: seq<Token>, k: int)
    requires WriteAt(ts, k)
    ensures 0 < k < |ts| && KindOfWord(ts[k].lower) in {Insert, Update, Delete}
  {
  }

  lemma BlockByWords(ts: seq<Token>)
    requires ts != [] && RunsWhatItHolds(ts)
    ensures var kind := FirstKinds(ts).0;
            && (kind == Select <==> OnlyReads(ts)) && (kind == Session <==> OnlySession(ts)) && kind != Unrecognised
            && (forall k :: (k == Insert || k == Update || k == Delete) ==> (kind == k <==> WritesAs(ts, k)))
  {
    hide FirstKinds, KindOfWord, SomeAdmin, SomeWrite, SomeRead, FirstWrite, WriteAt, BlockKind, HoldsBlock;
    BlockOpens(ts);
    BlockFrom(ts, 1, Session);
    if SomeWrite(ts, 1) {
      SomeFirstWrite(ts, 1);
    }
    forall k | FirstWrite(ts, 1, k) ensures SomeWrite(ts, 1) && 1 <= k < |ts| && KindOfWord(ts[k].lower) in {Insert, Update, Delete} {
      FirstInside(ts, k);
    }
  }

  lemma FirstInside(ts: seq<Token>, k: int)
    requires FirstWrite(ts, 1, k)
    ensures SomeWrite(ts, 1) && 1 <= k < |ts| && KindOfWord(ts[k].lower) in {Insert, Update, Delete}
  {
  }

  lemma FirstWordLists(w: string)
    ensures ReadVerb(w) <==> ReadsFirst(w)
    ensures SessionVerb(w) <==> SessionFirst(w)
  {
  }

  lemma ReadsApart(w: string)
    requires ReadsFirst(w)
    ensures !SessionFirst(w)
    ensures !WriteWord(w) && w != "set" && w != "with" && w != "explain"
  {
  }

  lemma SessionApart(w: string)
    requires SessionFirst(w)
    ensures !WriteWord(w) && w != "set" && w != "drop" && w != "truncate" && w != "with" && w != "explain"
  {
  }

  lemma WritesApart(w: string)
    ensures WriteWord(w) <==> w in ["insert", "replace", "upsert"] || w in ["update", "merge"] || w == "delete"
    ensures w in ["insert", "replace", "upsert"] <==> KindOfWord(w) == Insert
    ensures w in ["update", "merge"] <==> KindOfWord(w) == Update
    ensures w == "delete" <==> KindOfWord(w) == Delete
    ensures WriteWord(w) ==> w != "set" && w != "drop" && w != "truncate" && w != "with" && w != "explain"
  {
  }

  /** The kind when the statement neither opens with WITH nor runs what it holds. */
  function PlainKind(w: string, next: string): Kind {
    if ReadsFirst(w) || w == "explain" then Select
    else if WriteWord(w) then KindOfWord(w)
    else if w == "drop" || w == "truncate" then DDL
    else if w == "set" then (if next in ["global", "persist", "persist_only"] then DDL else Session)
    else if SessionFirst(w) then Session
    else if AdminVerb(w) then DDL
    else Other
  }

  lemma PlainFirst(ts: seq<Token>)
    requires ts != [] && ts[0].lower != "with" && !RunsWhatItHolds(ts)
    ensures FirstKinds(ts).0 == PlainKind(ts[0].lower, NextLower(ts, 0))
  {
    hide BlockKind, WithKinds, ReadVerb, SessionVerb, AdminVerb, ReadsFirst, SessionFirst, WriteWord, KindOfWord, HoldsBlock, RunsWhatItHolds;
    BlockOpens(ts);
    FirstWordLists(ts[0].lower);
    WritesApart(ts[0].lower);
  }

  lemma PlainByWords(ts: seq<Token>)
    requires ts != [] && ts[0].lower != "with" && !RunsWhatItHolds(ts)
    ensures var kind := FirstKinds(ts).0;
            && (kind == Select <==> OnlyReads(ts)) && (kind == Session <==> OnlySession(ts)) && kind != Unrecognised
            && (forall k :: (k == Insert || k == Update || k == Delete) ==> (kind == k <==> WritesAs(ts, k)))
  {
    hide SomeAdmin, SomeWrite, SomeRead, FirstWrite, WriteAt, LastWrite, FirstKinds, ReadsFirst, SessionFirst, WriteWord, KindOfWord, AdminVerb, RunsWhatItHolds;
    var w := ts[0].lower;
    PlainFirst(ts);
    WritesApart(w);
    WordKinds(w);
    if ReadsFirst(w) {
      ReadsApart(w);
    }
    if SessionFirst(w) {
      SessionApart(w);
    }
  }

  lemma WritesAreWrites(ts: seq<Token>, kind: Kind)
    requires ts != [] && WritesAs(ts, kind)
    ensures kind == Insert || kind == Update || kind == Delete
  {
    hide WriteWord, KindOfWord, SomeAdmin, RunsWhatItHolds;
    WordKinds(ts[0].lower);
    if k :| LastWrite(ts, k) && kind == KindOfWord(ts[k].lower) {
      WordKinds(ts[k].lower);
    }
    if k :| FirstWrite(ts, 1, k) && kind == KindOfWord(ts[k].lower) {
      WordKinds(ts[k].lower);
    }
  }

  /** The kind after the corrections for variables and for INTO. */
  lemma FinalKind(number: Numbers, d: Dialect, raw: string, ts: seq<Token>)
    requires ts != []
    ensures ClassifyTokens(number, d, raw, ts).kind
         == (if OnlyTableVariable(FirstKinds(ts).0, ExtractTables(ts, 0, {}), ts) then Session
             else if SelectCreates(FirstKinds(ts).0, ts) then DDL
             else FirstKinds(ts).0)
  {
    hide FirstKinds, ExtractTables, HasEffectiveWhere, TouchesSession, ControlsTransaction, OnlyTableVariable, SelectCreates, HoldsBlock, Names;
    OnlySelectCreates(ts);
  }

  /** Main result: a statement is read as a read or as session work exactly when its words make it one. */
  lemma HarmlessExactly(number: Numbers, d: Dialect, raw: string, ts: seq<Token>)
    requires ts != []
    ensures var kind := ClassifyTokens(number, d, raw, ts).kind; kind == Select || kind == Session <==> Harmless(ts)
    ensures ClassifyTokens(number, d, raw, ts).kind != Unrecognised
  {
    hide *;
    FinalKind(number, d, raw, ts);
    FirstKindByWords(ts);
    var kind := FirstKinds(ts).0;
    VariableByWords(ts, kind);
    CreatesByWords(ts);
    OnlySelectCreates(ts);
    forall k | WritesAs(ts, k) ensures kind == k && (k == Insert || k == Update || k == Delete) {
      WritesAreWrites(ts, k);
    }
    HarmlessCases(ts, kind);
  }

  lemma HarmlessCases(ts: seq<Token>, kind: Kind)
    requires ts != [] && forall k :: WritesAs(ts, k) ==> kind == k
    ensures Harmless(ts) <==>
              || (OnlyReads(ts) && !CreatesByInto(ts))
              || OnlySession(ts)
              || (WritesAs(ts, kind) && (forall k :: 0 <= k < |ts| ==> !NamesTable(ts, k)) && TargetsVariable(ts, kind))
  {
    hide OnlyReads, OnlySession, WritesAs, CreatesByInto, TargetsVariable, NamesTable;
  }

  lemma OnlySelectCreates(ts: seq<Token>)
    ensures forall k :: SelectCreates(k, ts) ==> k == Select
  {
  }

  /** Main result: of single statements, a read-only role that was not cleared is denied exactly those that are not harmless by
      their words, and those that read a table without a WHERE where that is forbidden. */
  lemma ReadOnlyRoleRuns(s: Settings, number: Numbers, d: Dialect, raw: string, ts: seq<Token>)
    requires ts != [] && s.readOnly && !s.cleared
    ensures var info := ClassifyTokens(number, d, raw, ts);
            Denied(s, info) <==>
              !Harmless(ts) || (SelectWithoutWhere !in s.disabled && info.kind == Select && !info.hasWhere && info.tables != [])
  {
    hide FirstKinds, ExtractTables, HasEffectiveWhere, TouchesSession, ControlsTransaction, OnlyTableVariable, SelectCreates, Harmless, HoldsBlock, BlockKind, Names;
    HarmlessExactly(number, d, raw, ts);
    DropsAreWrites(number, d, raw, ts);
  }

  lemma DropsAreWrites(number: Numbers, d: Dialect, raw: string, ts: seq<Token>)
    requires ts != []
    ensures var info := ClassifyTokens(number, d, raw, ts); info.isDrop || info.isTruncate ==> info.kind == DDL
  {
    hide ExtractTables, HasEffectiveWhere, TouchesSession, ControlsTransaction, BlockKind, WithKinds, HoldsBlock, Names, FirstKinds, SomeAdmin, TargetWord, TopInto;
    BlockOpens(ts);
    if HoldsBlock(ts) {
      BlockIsItsRiskiest(ts);
      DropsByWords(number, d, raw, ts);
      DropIsAdmin(ts);
    }
    if ts[0].lower == "drop" || ts[0].lower == "truncate" {
      OneWordDrops(ts);
    }
  }

  lemma DropIsAdmin(ts: seq<Token>)
    ensures (exists k :: 0 < k < |ts| && (ts[k].lower == "drop" || ts[k].lower == "truncate")) ==> SomeAdmin(ts, 1)
  {
    if k :| 0 < k < |ts| && (ts[k].lower == "drop" || ts[k].lower == "truncate") {
      assert AdminWord(ts[k].lower);
    }
  }

  lemma OneWordDrops(ts: seq<Token>)
    requires ts != [] && (ts[0].lower == "drop" || ts[0].lower == "truncate")
    ensures FirstKinds(ts).0 == DDL
  {
    hide BlockKind, WithKinds;
  }

  /** A WITH that changes rows of a table is read as its last write and refused to a read-only role, whatever it selects in the end. */
  lemma DataChangingWithIsDenied(s: Settings, number: Numbers, d: Dialect, raw: string, ts: seq<Token>, k: int, table: int)
    requires s.readOnly && !s.cleared && ts != [] && ts[0].lower == "with" && LastWrite(ts, k) && NamesTable(ts, table)
    ensures ClassifyTokens(number, d, raw, ts).kind == KindOfWord(ts[k].lower) && Denied(s, ClassifyTokens(number, d, raw, ts))
  {
    hide *;
    WithByWords(ts);
    WriteOf(ts, k);
    FinalKind(number, d, raw, ts);
    VariableByWords(ts, FirstKinds(ts).0);
    OnlySelectCreates(ts);
    TableInside(ts, table);
    WriteIsDenied(s, ClassifyTokens(number, d, raw, ts));
  }

  lemma WriteOf(ts: seq<Token>, k: int)
    requires ts != [] && ts[0].lower == "with" && LastWrite(ts, k)
    ensures 0 < k < |ts| && WritesAs(ts, KindOfWord(ts[k].lower))
    ensures KindOfWord(ts[k].lower) == Insert || KindOfWord(ts[k].lower) == Update || KindOfWord(ts[k].lower) == Delete
  {
    hide KindOfWord, WriteAt, SomeAdmin, RunsWhatItHolds, FirstWrite;
    WriteInside(ts, k);
  }

  lemma TableInside(ts: seq<Token>, table: int)
    requires NamesTable(ts, table)
    ensures 0 <= table < |ts|
  {
  }

  lemma WriteIsDenied(s: Settings, stmt: Info)
    requires s.readOnly && !s.cleared && (stmt.kind == Insert || stmt.kind == Update || stmt.kind == Delete)
    ensures Denied(s, stmt)
  {
  }

  // ------------------------------------------------------------------
  // The WHERE of a statement that is no UPDATE or DELETE.

  predicate WhereHere(ts: seq<Token>, i: int) {
    0 <= i < |ts| && ts[i].depth == 0 && ts[i].lower == "where" && !ts[i].quoted
  }

  /** The words that begin a clause, a table or a join, and so end an expression. */
  predicate ClauseStart(w: string) {
    w in {"from", "into", "outfile", "dumpfile", "where", "join", "left", "right", "full", "inner", "outer", "cross", "on",
          "group", "order", "limit", "offset", "fetch", "returning", "union", "intersect", "except", "set", "values",
          "using", "with", "use", "force", "ignore", "window", "qualify", "for", "having"}
  }

  lemma ReservedWords(w: string)
    ensures Reserved(w) <==> ClauseStart(w)
  {
  }

  predicate StopHere(ts: seq<Token>, i: int) {
    0 <= i < |ts| && ts[i].depth == 0 && ts[i].lower != "where" && !ts[i].quoted && ClauseStart(ts[i].lower)
  }

  lemma {:induction false} WhereFound(ts: seq<Token>, i: nat)
    requires i <= |ts|
    ensures var w := TopWhere(ts, i); i <= w && (w < |ts| ==> WhereHere(ts, w)) && forall j :: i <= j < w ==> !WhereHere(ts, j)
    decreases |ts| - i
  {
    if i < |ts| && TopWhere(ts, i) != i {
      WhereFound(ts, i + 1);
    }
  }

  lemma {:induction false} StopFound(ts: seq<Token>, i: nat)
    requires i <= |ts|
    ensures var e := TopClauseEnd(ts, i); i <= e && (e < |ts| ==> StopHere(ts, e)) && forall j :: i <= j < e ==> !StopHere(ts, j)
    decreases |ts| - i
  {
    hide Reserved, ClauseStart;
    if i < |ts| {
      ReservedWords(ts[i].lower);
    }
    if i < |ts| && TopClauseEnd(ts, i) != i {
      StopFound(ts, i + 1);
    }
  }

  ghost predicate FirstWhere(ts: seq<Token>, w: int) {
    WhereHere(ts, w) && forall j :: 0 <= j < w ==> !WhereHere(ts, j)
  }

  /** The expression after token w reaches to e, outside parentheses. */
  ghost predicate ReachesTo(ts: seq<Token>, w: int, e: int) {
    0 <= w < e <= |ts| && (e == |ts| || StopHere(ts, e)) && forall j :: w < j < e ==> !StopHere(ts, j)
  }

  lemma WhereIsFirst(ts: seq<Token>, w: int)
    requires FirstWhere(ts, w)
    ensures 0 <= w < |ts| && TopWhere(ts, 0) == w
  {
    hide TopWhere;
    WhereFound(ts, 0);
  }

  lemma ReachIsClause(ts: seq<Token>, w: nat, e: int)
    requires ReachesTo(ts, w, e)
    ensures w < e <= |ts| && TopClauseEnd(ts, w + 1) == e
  {
    hide TopClauseEnd, StopHere;
    StopFound(ts, w + 1);
  }

  /** The first WHERE outside parentheses counts, quoted names apart; a SELECT's counts unless what stands between it and the
      next clause outside parentheses folds to true. */
  lemma WhereByWords(number: Numbers, kind: Kind, ts: seq<Token>, w: nat, e: nat)
    requires kind != Update && kind != Delete && FirstWhere(ts, w) && ReachesTo(ts, w, e)
    ensures e <= |ts| && (HasEffectiveWhere(number, kind, ts) <==> kind != Select || Fold(number, ts[w + 1..e]) != Known(true))
  {
    hide FirstWhere, ReachesTo, TopWhere, TopClauseEnd, Fold;
    WhereIsFirst(ts, w);
    ReachIsClause(ts, w, e);
  }

  lemma NoWhereByWords(number: Numbers, kind: Kind, ts: seq<Token>)
    requires kind != Update && kind != Delete && forall w :: !WhereHere(ts, w)
    ensures !HasEffectiveWhere(number, kind, ts)
  {
    hide TopWhere, WhereHere;
    WhereFound(ts, 0);
  }

  // ------------------------------------------------------------------
  // The WHERE of an UPDATE, MERGE or DELETE.

  predicate WordAt(ts: seq<Token>, i: int, word: string) {
    0 <= i < |ts| && ts[i].lower == word && !ts[i].quoted
  }

  /** A write of rows; FOR UPDATE is none. */
  predicate RowWriteAt(ts: seq<Token>, i: int) {
    (WordAt(ts, i, "update") || WordAt(ts, i, "merge") || WordAt(ts, i, "delete")) && !WordAt(ts, i - 1, "for")
  }

  /** The first WHERE at the depth of token i that stands after it and before its parenthesis closes. */
  ghost predicate WhereFor(ts: seq<Token>, i: nat, w: int) {
    && 0 <= i < w < |ts| && ts[w].depth == ts[i].depth && WordAt(ts, w, "where")
    && forall j :: i < j < w ==> ts[j].depth >= ts[i].depth && !(ts[j].depth == ts[i].depth && WordAt(ts, j, "where"))
  }

  predicate LeavesClause(ts: seq<Token>, depth: nat, e: int) {
    0 <= e < |ts| && (ts[e].depth < depth || (ts[e].depth == depth && !ts[e].quoted && ClauseStart(ts[e].lower)))
  }

  /** The clause after token w reaches to e. */
  ghost predicate ClauseTo(ts: seq<Token>, depth: nat, w: int, e: int) {
    0 <= w < e <= |ts| && (e == |ts| || LeavesClause(ts, depth, e)) && forall j :: w < j < e ==> !LeavesClause(ts, depth, j)
  }

  lemma {:induction false} WhereSearched(ts: seq<Token>, i: nat, from: nat)
    requires i < from <= |ts|
    requires forall j :: i < j < from ==> ts[j].depth >= ts[i].depth && !(ts[j].depth == ts[i].depth && WordAt(ts, j, "where"))
    ensures var w := WhereOf(ts, ts[i].depth, from); if w < |ts| then WhereFor(ts, i, w) else forall k :: !WhereFor(ts, i, k)
    decreases |ts| - from
  {
    if from < |ts| && ts[from].depth >= ts[i].depth && !(ts[from].depth == ts[i].depth && ts[from].Keyword("where")) {
      WhereSearched(ts, i, from + 1);
    }
  }

  lemma {:induction false} ClauseSearched(ts: seq<Token>, depth: nat, w: nat, from: nat)
    requires w < from <= |ts| && forall j :: w < j < from ==> !LeavesClause(ts, depth, j)
    ensures ClauseTo(ts, depth, w, ClauseEnd(ts, depth, from))
    decreases |ts| - from
  {
    hide Reserved, ClauseStart;
    if from < |ts| {
      ReservedWords(ts[from].lower);
      if !LeavesClause(ts, depth, from) {
        ClauseSearched(ts, depth, w, from + 1);
      }
    }
  }

  lemma OneWhere(ts: seq<Token>, i: nat, w: int, v: int)
    requires WhereFor(ts, i, w) && WhereFor(ts, i, v)
    ensures w == v
  {
  }

  lemma OneClause(ts: seq<Token>, depth: nat, w: int, e: int, f: int)
    requires ClauseTo(ts, depth, w, e) && ClauseTo(ts, depth, w, f)
    ensures e == f
  {
    hide LeavesClause;
  }

  /** Whether a row write has a WHERE that limits it, by its words. */
  lemma WriteWhereByWords(number: Numbers, ts: seq<Token>, i: nat, w: nat, e: nat)
    requires i < |ts| && WhereFor(ts, i, w) && ClauseTo(ts, ts[i].depth, w, e)
    ensures w < e <= |ts| && (EffectiveWhere(number, ts, i) <==> Fold(number, ts[w + 1..e]) != Known(true))
  {
    hide WhereFor, ClauseTo, WhereOf, ClauseEnd, Fold, WordAt;
    WhereSearched(ts, i, i + 1);
    var v := WhereOf(ts, ts[i].depth, i + 1);
    if v == |ts| {
      assert false;
    } else {
      OneWhere(ts, i, w, v);
      ClauseSearched(ts, ts[i].depth, w, w + 1);
      OneClause(ts, ts[i].depth, w, e, ClauseEnd(ts, ts[i].depth, w + 1));
      ClauseInside(ts, ts[i].depth, w, e);
    }
  }

  /** Which words write rows, and that one without a WHERE of its own is limited by none. */
  lemma NoWriteWhereByWords(number: Numbers, ts: seq<Token>, i: nat)
    requires i < |ts|
    ensures WritesRows(ts, i) <==> RowWriteAt(ts, i)
    ensures (forall w :: !WhereFor(ts, i, w)) ==> !EffectiveWhere(number, ts, i)
  {
    hide WhereFor, WhereOf, ClauseEnd, Fold, WordAt, RowWriteAt, WritesRows;
    FirstIsNoFor(ts, i);
    WhereSearched(ts, i, i + 1);
  }

  lemma FirstIsNoFor(ts: seq<Token>, i: nat)
    requires i < |ts|
    ensures WritesRows(ts, i) <==> RowWriteAt(ts, i)
  {
  }

  lemma ClauseInside(ts: seq<Token>, depth: nat, w: int, e: int)
    requires ClauseTo(ts, depth, w, e)
    ensures 0 <= w < e <= |ts|
  {
  }
}
