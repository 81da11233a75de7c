/** Reading one statement: what it does, what it touches and whether its WHERE limits anything. */
module Classifier {
  import opened Prelude
  import opened Bytes
  import opened Lexer
  import opened Splitter
  import opened Folder

  datatype Kind = Select | Insert | Update | Delete | DDL | Session | Other | Unrecognised

  datatype TableRef = TableRef(schema: string, name: string, alias: string)

  datatype Info = Info(
    dialect: Dialect,
    kind: Kind,
    command: Kind,
    tables: seq<TableRef>,
    hasWhere: bool,
    isDrop: bool,
    isTruncate: bool,
    touchesSession: bool,
    controlsTransaction: bool,
    switchesDatabase: bool,
    isScript: bool,
    unscoped: seq<Kind>,
    raw: string,
    tokens: seq<Token>)
  {
    /** Performs `k` without a WHERE, as one statement or as one of several. */
    predicate LacksWhere(k: Kind) {
      (kind == k && !hasWhere) || k in unscoped
    }
  }

  predicate IsWrite(k: Kind) {
    k == Insert || k == Update || k == Delete || k == DDL
  }

  function Blank(d: Dialect, raw: string): Info {
    Info(d, Unrecognised, Unrecognised, [], false, false, false, false, false, false, false, [], raw, [])
  }

  // ------------------------------------------------------------------
  // Verbs.

  predicate ReadVerb(w: string) {
    w in ["select", "values", "table", "show", "describe", "desc", "pragma", "fetch"]
  }

  predicate BlockVerb(w: string) {
    w in ["begin", "if", "while", "else"]
  }

  predicate SessionVerb(w: string) {
    w in ["use", "start", "commit", "rollback", "savepoint", "release", "discard",
          "declare", "print", "open", "close", "deallocate", "throw", "raiserror",
          "return", "break", "continue", "goto", "go", "listen", "unlisten", "notify"]
  }

  predicate AdminVerb(w: string) {
    w in ["create", "alter", "rename", "comment", "grant", "revoke", "call", "copy", "execute", "exec", "vacuum",
          "analyze", "attach", "detach",
          "do", "load", "bulk", "optimize", "system", "kill", "put", "get", "remove", "undrop", "refresh", "reindex",
          "cluster", "dbcc",
          "backup", "restore", "checkpoint", "shutdown", "reconfigure", "flush", "reset", "lock", "unlock", "repair",
          "install", "uninstall"]
  }

  predicate BlockAdminVerb(w: string) {
    w in ["create", "alter", "grant", "revoke", "exec", "execute", "call", "backup", "restore", "rename"]
  }

  /** Words that introduce or join tables. */
  predicate TableWord(w: string) {
    w in ["from", "into", "outfile", "dumpfile", "where", "join", "left", "right", "full", "inner", "outer", "cross", "on"]
  }

  predicate ClauseWord(w: string) {
    w in ["group", "order", "limit", "offset", "fetch", "returning", "union", "intersect", "except", "set", "values"]
  }

  predicate OptionWord(w: string) {
    w in ["using", "with", "use", "force", "ignore", "window", "qualify", "for", "having"]
  }

  predicate Reserved(w: string) {
    TableWord(w) || ClauseWord(w) || OptionWord(w)
  }

  lemma ReservedIsLong(w: string)
    requires Reserved(w)
    ensures |w| > 2 || w == "on"
    ensures |w| == 3 ==> w[0] != 'a'
  {
  }

  lemma ShortIsFree(w: string)
    requires (|w| <= 2 && w != "on") || (|w| == 3 && w[0] == 'a')
    ensures !Reserved(w)
  {
    hide Reserved;
    if Reserved(w) {
      ReservedIsLong(w);
    }
  }

  predicate ReservedWord(t: Token) {
    !t.quoted && Reserved(t.lower)
  }

  function TokenKind(w: string): Option<Kind> {
    if w in ["select", "values", "table"] then Some(Select)
    else if w in ["insert", "replace", "upsert"] then Some(Insert)
    else if w in ["update", "merge"] then Some(Update)
    else if w == "delete" then Some(Delete)
    else None
  }

  // ------------------------------------------------------------------
  // WITH, EXPLAIN and blocks.

  predicate ExplainRuns(ts: seq<Token>) {
    exists k :: 0 < k < |ts| && (ts[k].Keyword("analyze") || ts[k].Keyword("analyse"))
  }

  /** The highest risk and the outer command of a WITH statement, from token i on. */
  function WithKinds(ts: seq<Token>, i: nat, risk: Kind, command: Kind): (Kind, Kind)
    requires i > 0
    decreases |ts| - i
  {
    if i >= |ts| then (if risk == Select then command else risk, command)
    else
      var kind := TokenKind(ts[i].lower);
      if ts[i - 1].lower == "for" || kind.None? then WithKinds(ts, i + 1, risk, command)
      else WithKinds(ts, i + 1,
                     if kind.value == Insert || kind.value == Update || kind.value == Delete then kind.value else risk,
                     if ts[i].depth == 0 then kind.value else command)
  }

  function BlockRank(k: Kind): nat {
    match k
    case Select => 1
    case Insert => 2
    case Update => 2
    case Delete => 2
    case DDL => 3
    case _ => 0
  }

  function BlockOperation(w: string): Option<Kind> {
    var k := TokenKind(w);
    if k.Some? then k
    else if w == "drop" || w == "truncate" || BlockAdminVerb(w) then Some(DDL)
    else None
  }

  /** The riskiest operation named from token i on. */
  function BlockKind(ts: seq<Token>, i: nat, best: Kind): Kind
    decreases |ts| - i
  {
    if i >= |ts| then best
    else
      var k := BlockOperation(ts[i].lower);
      BlockKind(ts, i + 1, if k.Some? && BlockRank(k.value) > BlockRank(best) then k.value else best)
  }

  predicate Names(ts: seq<Token>, w: string) {
    exists k :: 0 < k < |ts| && ts[k].lower == w
  }

  // ------------------------------------------------------------------
  // Tables.

  predicate IntroducesTable(ts: seq<Token>, i: nat)
    requires i < |ts|
  {
    var w := ts[i].lower;
    && (w in ["from", "join", "update", "into", "truncate"] || (i == 0 && w == "table"))
    && !(w == "update" && i > 0 && ts[i - 1].Keyword("key"))
    && !(w == "into" && i + 1 < |ts| && (ts[i + 1].Keyword("outfile") || ts[i + 1].Keyword("dumpfile")))
  }

  /** One past the dotted name whose first part is token j. */
  function DottedEnd(ts: seq<Token>, j: nat): (e: nat)
    requires j < |ts|
    ensures j < e <= |ts|
    decreases |ts| - j
  {
    if j + 2 < |ts| && ts[j + 1].text == "." && ts[j + 2].identifier then DottedEnd(ts, j + 2) else j + 1
  }

  function TableAt(ts: seq<Token>, i: nat): Option<TableRef>
    requires i < |ts|
  {
    if !IntroducesTable(ts, i) then None
    else
      var j := if i + 1 < |ts| && ts[i + 1].lower == "table" && ts[i].lower != "table" then i + 2 else i + 1;
      if j >= |ts| || ts[j].text == "(" || !ts[j].identifier then None
      else
        var e := DottedEnd(ts, j);
        var schema := if e - 1 > j then ts[e - 3].lower else "";
        var a := if e < |ts| && ts[e].lower == "as" then e + 1 else e;
        var alias := if a < |ts| && ts[a].identifier && !Reserved(ts[a].lower) then ts[a].lower else "";
        Some(TableRef(schema, ts[e - 1].lower, alias))
  }

  function TableKey(t: TableRef): string {
    t.schema + "." + t.name + "." + t.alias
  }

  function ExtractTables(ts: seq<Token>, i: nat, seen: set<string>): seq<TableRef>
    decreases |ts| - i
  {
    if i >= |ts| then []
    else
      match TableAt(ts, i)
      case None => ExtractTables(ts, i + 1, seen)
      case Some(t) =>
        if TableKey(t) in seen then ExtractTables(ts, i + 1, seen)
        else [t] + ExtractTables(ts, i + 1, seen + {TableKey(t)})
  }

  // ------------------------------------------------------------------
  // WHERE clauses.

  /** First token at or after i that leaves the clause at `depth`, or |ts|. */
  function ClauseEnd(ts: seq<Token>, depth: nat, i: nat): (e: nat)
    requires i <= |ts|
    ensures i <= e <= |ts|
    decreases |ts| - i
  {
    if i == |ts| || ts[i].depth < depth || (ts[i].depth == depth && ReservedWord(ts[i])) then i
    else ClauseEnd(ts, depth, i + 1)
  }

  predicate AlwaysTrue(number: Numbers, expression: seq<Token>) {
    Fold(number, expression) == Known(true)
  }

  /** The WHERE of a write at token i: the first one at its depth before the write's parenthesis closes, or |ts|. */
  function WhereOf(ts: seq<Token>, depth: nat, i: nat): (w: nat)
    requires i <= |ts|
    ensures i <= w <= |ts|
    ensures w < |ts| ==> ts[w].depth == depth && ts[w].Keyword("where")
    decreases |ts| - i
  {
    if i == |ts| then i
    else if ts[i].depth < depth then |ts|
    else if ts[i].depth == depth && ts[i].Keyword("where") then i
    else WhereOf(ts, depth, i + 1)
  }

  predicate WritesRows(ts: seq<Token>, i: nat)
    requires i < |ts|
  {
    && (ts[i].Keyword("update") || ts[i].Keyword("merge") || ts[i].Keyword("delete"))
    && !(i > 0 && ts[i - 1].Keyword("for"))
  }

  /** The write at token i has a WHERE that is not true on every row. */
  predicate EffectiveWhere(number: Numbers, ts: seq<Token>, i: nat)
    requires i < |ts|
  {
    var w := WhereOf(ts, ts[i].depth, i + 1);
    w < |ts| && !AlwaysTrue(number, ts[w + 1..ClauseEnd(ts, ts[i].depth, w + 1)])
  }

  predicate WritesHaveEffectiveWhere(number: Numbers, ts: seq<Token>) {
    && (exists i :: 0 <= i < |ts| && WritesRows(ts, i))
    && forall i :: 0 <= i < |ts| && WritesRows(ts, i) ==> EffectiveWhere(number, ts, i)
  }

  /** First top-level WHERE, or |ts|. */
  function TopWhere(ts: seq<Token>, i: nat): (w: nat)
    requires i <= |ts|
    ensures i <= w <= |ts|
    decreases |ts| - i
  {
    if i == |ts| || (ts[i].depth == 0 && ts[i].Keyword("where")) then i else TopWhere(ts, i + 1)
  }

  /** Where a top-level reserved word other than WHERE ends the expression. */
  function TopClauseEnd(ts: seq<Token>, i: nat): (e: nat)
    requires i <= |ts|
    ensures i <= e <= |ts|
    decreases |ts| - i
  {
    if i == |ts| || (ts[i].depth == 0 && ReservedWord(ts[i]) && ts[i].lower != "where") then i
    else TopClauseEnd(ts, i + 1)
  }

  predicate WhereIsTautology(number: Numbers, ts: seq<Token>) {
    var w := TopWhere(ts, 0);
    w < |ts| && AlwaysTrue(number, ts[w + 1..TopClauseEnd(ts, w + 1)])
  }

  // ------------------------------------------------------------------
  // Session effects.

  predicate StateVerb(w: string) {
    w in ["set", "declare", "open", "close", "deallocate", "fetch", "print", "raiserror", "throw", "waitfor",
          "listen", "unlisten", "prepare", "discard", "reset"]
  }

  predicate TransactionVerb(w: string) {
    w in ["commit", "rollback", "savepoint", "release"]
  }

  predicate OpensTransaction(next: string) {
    next in ["transaction", "tran", "work", "", "isolation", "deferrable", "read", "not"]
  }

  predicate ControlsTransaction(ts: seq<Token>)
    requires ts != []
  {
    && !ts[0].quoted
    && (TransactionVerb(ts[0].lower) || ((ts[0].lower == "start" || ts[0].lower == "begin") && OpensTransaction(NextLower(ts, 0))))
  }

  predicate LeavesTemporary(ts: seq<Token>, k: nat)
    requires k < |ts|
  {
    && !ts[k].quoted
    && (|| HasPrefix(ts[k].lower, "#")
        || (k > 0 && ts[k].lower in ["temporary", "temp"] && ts[0].lower in ["create", "drop", "declare"]))
  }

  predicate TouchesSession(ts: seq<Token>)
    requires ts != []
  {
    && !ts[0].quoted
    && (StateVerb(ts[0].lower) || exists k :: 0 <= k < |ts| && LeavesTemporary(ts, k))
  }

  // ------------------------------------------------------------------
  // The statement.

  predicate HoldsBlock(ts: seq<Token>)
    requires ts != []
  {
    BlockVerb(ts[0].lower) || (ts[0].lower == "explain" && ExplainRuns(ts))
  }

  /** Kind and command by the first word, before the corrections below. */
  function FirstKinds(ts: seq<Token>): (Kind, Kind)
    requires ts != []
  {
    var w := ts[0].lower;
    var single := (k: Kind) => (k, k);
    if ReadVerb(w) then single(Select)
    else if HoldsBlock(ts) then single(BlockKind(ts, 1, Session))
    else if w == "explain" then single(Select)
    else if w == "with" then WithKinds(ts, 1, Select, Select)
    else if w in ["insert", "replace", "upsert"] then single(Insert)
    else if w in ["update", "merge"] then single(Update)
    else if w == "delete" then single(Delete)
    else if w == "drop" || w == "truncate" then single(DDL)
    else if w == "set" then single(if NextLower(ts, 0) in ["global", "persist", "persist_only"] then DDL else Session)
    else if SessionVerb(w) then single(Session)
    else if AdminVerb(w) then single(DDL)
    else single(Other)
  }

  function HasEffectiveWhere(number: Numbers, kind: Kind, ts: seq<Token>): bool {
    if kind == Update || kind == Delete then WritesHaveEffectiveWhere(number, ts)
    else TopWhere(ts, 0) < |ts| && !(kind == Select && WhereIsTautology(number, ts))
  }

  /** First token that names the target of a write, or |ts|. */
  function TargetWord(ts: seq<Token>, kind: Kind, i: nat): (w: nat)
    requires i <= |ts|
    ensures i <= w <= |ts|
    decreases |ts| - i
  {
    if i + 1 >= |ts| then |ts|
    else if ts[i].lower == "into" || ts[i].lower == "update" || (ts[i].lower == "from" && kind == Delete) then i
    else TargetWord(ts, kind, i + 1)
  }

  predicate OnlyTableVariable(kind: Kind, tables: seq<TableRef>, ts: seq<Token>) {
    && tables == []
    && (kind == Insert || kind == Update || kind == Delete)
    && TargetWord(ts, kind, 0) + 1 < |ts|
    && HasPrefix(ts[TargetWord(ts, kind, 0) + 1].text, "@")
  }

  /** First top-level INTO with a token after it, or |ts|. */
  function TopInto(ts: seq<Token>, i: nat): (w: nat)
    requires i <= |ts|
    ensures i <= w <= |ts|
    decreases |ts| - i
  {
    if i + 1 >= |ts| then |ts|
    else if ts[i].depth == 0 && ts[i].Keyword("into") then i
    else TopInto(ts, i + 1)
  }

  predicate SelectCreates(kind: Kind, ts: seq<Token>) {
    && kind == Select
    && TopInto(ts, 0) + 1 < |ts|
    && !HasPrefix(ts[TopInto(ts, 0) + 1].text, "@")
  }

  function ClassifyTokens(number: Numbers, d: Dialect, raw: string, ts: seq<Token>): Info
    requires ts != []
  {
    var w := ts[0].lower;
    var (kind, command) := FirstKinds(ts);
    var tables := ExtractTables(ts, 0, {});
    var settled := if OnlyTableVariable(kind, tables, ts) then Session else kind;
    var creates := SelectCreates(settled, ts);
    Info(d,
         if creates then DDL else settled,
         if creates then DDL else command,
         tables,
         HasEffectiveWhere(number, kind, ts),
         w == "drop" || (HoldsBlock(ts) && Names(ts, "drop")),
         w == "truncate" || (HoldsBlock(ts) && Names(ts, "truncate")),
         TouchesSession(ts),
         ControlsTransaction(ts),
         !ts[0].quoted && w == "use",
         false, [], raw, ts)
  }

  /** An unreadable statement is Unrecognised. */
  function Classify(number: Numbers, d: Dialect, statement: string): Info {
    var raw := TrimSpace(statement);
    match Lex(d, raw)
    case Err(_) => Blank(d, raw)
    case Ok(ts) => if ts == [] then Blank(d, raw) else ClassifyTokens(number, d, raw, ts)
  }

  // ------------------------------------------------------------------
  // The scan for writes, as the program makes it.

  method FindWhere(ts: seq<Token>, depth: nat, from: nat) returns (where: nat)
    requires from <= |ts|
    ensures where == WhereOf(ts, depth, from)
  {
    for next := from to |ts|
      invariant WhereOf(ts, depth, next) == WhereOf(ts, depth, from)
    {
      if ts[next].depth < depth {
        return |ts|;
      }
      if ts[next].depth == depth && ts[next].Keyword("where") {
        return next;
      }
    }
    where := |ts|;
  }

  method ComputeWritesHaveEffectiveWhere(number: Numbers, ts: seq<Token>) returns (r: bool)
    ensures r == WritesHaveEffectiveWhere(number, ts)
  {
    hide WritesRows, AlwaysTrue, ClauseEnd, WhereOf, EffectiveWhere, Fold;
    var found := false;
    for i := 0 to |ts|
      invariant found <==> exists k :: 0 <= k < i && WritesRows(ts, k)
      invariant forall k :: 0 <= k < i && WritesRows(ts, k) ==> EffectiveWhere(number, ts, k)
    {
      if !WritesRows(ts, i) {
        continue;
      }
      found := true;
      var where := FindWhere(ts, ts[i].depth, i + 1);
      EffectiveAt(number, ts, i);
      if where == |ts| {
        return false;
      }
      var expression := ts[where + 1..ClauseEnd(ts, ts[i].depth, where + 1)];
      var known, value := ConstantBoolean(number, expression);
      FoldVerdict(number, expression, known, value);
      if known && value {
        return false;
      }
    }
    r := found;
  }

  lemma EffectiveAt(number: Numbers, ts: seq<Token>, i: nat)
    requires i < |ts|
    ensures var w := WhereOf(ts, ts[i].depth, i + 1);
            EffectiveWhere(number, ts, i) <==> w < |ts| && !AlwaysTrue(number, ts[w + 1..ClauseEnd(ts, ts[i].depth, w + 1)])
  {
    hide AlwaysTrue, ClauseEnd, WhereOf;
  }

  lemma FoldVerdict(number: Numbers, ts: seq<Token>, known: bool, value: bool)
    requires known <==> Fold(number, ts).Known?
    requires known ==> Fold(number, ts) == Known(value)
    ensures AlwaysTrue(number, ts) <==> known && value
  {
  }
}
