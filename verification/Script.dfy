/** Reading a script of several statements as one. */
module Script {
  import opened Bytes
  import opened Lexer
  import opened Folder
  import opened Classifier

  /** How much a statement of this kind can do; what cannot be read outranks everything. */
  function Rank(k: Kind): nat {
    match k
    case Session => 0
    case Select => 1
    case Insert => 2
    case Update => 2
    case Delete => 2
    case DDL => 3
    case Other => 4
    case Unrecognised => 5
  }

  /** The kind that names the script: the first of the highest rank, Session when nothing ranks. */
  function TopKind(parts: seq<Info>): Kind {
    if parts == [] then Session
    else
      var best := TopKind(parts[..|parts| - 1]);
      var last := parts[|parts| - 1].kind;
      if Rank(last) > Rank(best) then last else best
  }

  /** Some part of kind k has no WHERE. */
  ghost predicate SomeLacksWhere(parts: seq<Info>, k: Kind) {
    exists i :: 0 <= i < |parts| && parts[i].kind == k && !parts[i].hasWhere
  }

  ghost predicate SomeKind(parts: seq<Info>, k: Kind) {
    exists i :: 0 <= i < |parts| && parts[i].kind == k
  }

  ghost predicate SomeUnscopedSelect(parts: seq<Info>) {
    exists i :: 0 <= i < |parts| && parts[i].kind == Select && !parts[i].hasWhere && parts[i].tables != []
  }

  datatype Flag = Drops | Truncates | Touches | Controls | Switches

  predicate Raised(info: Info, flag: Flag) {
    match flag
    case Drops => info.isDrop
    case Truncates => info.isTruncate
    case Touches => info.touchesSession
    case Controls => info.controlsTransaction
    case Switches => info.switchesDatabase
  }

  ghost predicate SomeRaises(parts: seq<Info>, flag: Flag) {
    exists i :: 0 <= i < |parts| && Raised(parts[i], flag)
  }

  /** What the fold over `parts` says about the script as a whole. */
  ghost predicate Merges(merged: Info, parts: seq<Info>) {
    && merged.isScript
    && merged.kind == TopKind(parts) && merged.command == merged.kind
    && (forall flag :: Raised(merged, flag) <==> SomeRaises(parts, flag))
    && (merged.hasWhere <==> SomeKind(parts, merged.kind) && !SomeLacksWhere(parts, merged.kind))
    && (forall t :: t in merged.tables <==> exists i :: 0 <= i < |parts| && t in parts[i].tables)
    && (forall i, j :: 0 <= i < j < |merged.tables| ==> merged.tables[i] != merged.tables[j])
    && (forall k :: k in merged.unscoped ==> k == Update || k == Delete || k == Select)
    && (Update in merged.unscoped <==> SomeLacksWhere(parts, Update) && merged.kind != Update)
    && (Delete in merged.unscoped <==> SomeLacksWhere(parts, Delete) && merged.kind != Delete)
    && (Select in merged.unscoped <==> SomeUnscopedSelect(parts) && merged.kind != Select)
  }

  /** The statements that are not blank, each read on its own. */
  function Parts(number: Numbers, d: Dialect, statements: seq<string>): seq<Info> {
    if statements == [] then []
    else
      var last := statements[|statements| - 1];
      Parts(number, d, statements[..|statements| - 1]) + (if TrimSpace(last) == "" then [] else [Classify(number, d, last)])
  }

  // ------------------------------------------------------------------
  // The loops of the program.

  /** Whether the part's missing WHERE is recorded beside the deciding kind. */
  predicate Records(part: Info) {
    part.kind == Update || part.kind == Delete || (part.kind == Select && part.tables != [])
  }

  /** Some part of kind k, which is not the deciding one, is recorded as lacking a WHERE. */
  ghost predicate LacksBeside(parts: seq<Info>, kind: Kind, k: Kind) {
    k != kind && exists i :: 0 <= i < |parts| && parts[i].kind == k && !parts[i].hasWhere && Records(parts[i])
  }

  ghost predicate NamesTable(parts: seq<Info>, t: TableRef) {
    exists i :: 0 <= i < |parts| && t in parts[i].tables
  }

  method MergeScript(number: Numbers, d: Dialect, sql: string, statements: seq<string>) returns (merged: Info)
    ensures Parts(number, d, statements) == []
        ==> merged == Blank(d, sql).(isScript := true)
    ensures Parts(number, d, statements) != [] ==> Merges(merged, Parts(number, d, statements))
    ensures merged.raw == sql && merged.dialect == d
    ensures Lex(d, sql).Ok? && Parts(number, d, statements) != [] ==> merged.tokens == Lex(d, sql).value
  {
    hide Classify, TrimSpace, Lex, Merges, Flagged, SomeKind, SomeLacksWhere, LacksBeside, NamesTable, Parts;
    var parts := ReadParts(number, d, statements);
    if parts == [] {
      return Blank(d, sql).(isScript := true);
    }
    var flags := MergeFlags(d, sql, parts);
    var tokens: seq<Token> := flags.tokens;
    var lexed := LexDialect(d, sql);
    if lexed.Ok? {
      tokens := lexed.value;
    }
    var hasWhere := DecidingWhere(parts, flags.kind);
    var unscoped := MissingWheres(parts, flags.(hasWhere := hasWhere));
    var tables := UnionTables(parts);
    merged := flags.(tokens := tokens, hasWhere := hasWhere, unscoped := unscoped, tables := tables);
    MergesByParts(flags, merged, parts);
  }

  lemma MergesByParts(flags: Info, merged: Info, parts: seq<Info>)
    requires Flagged(flags, parts)
    requires merged == flags.(tokens := merged.tokens, hasWhere := merged.hasWhere, unscoped := merged.unscoped, tables := merged.tables)
    requires merged.hasWhere <==> SomeKind(parts, merged.kind) && !SomeLacksWhere(parts, merged.kind)
    requires forall k :: k in merged.unscoped <==> LacksBeside(parts, merged.kind, k)
    requires forall t :: t in merged.tables <==> NamesTable(parts, t)
    requires forall i, j :: 0 <= i < j < |merged.tables| ==> merged.tables[i] != merged.tables[j]
    ensures Merges(merged, parts)
  {
    hide TopKind, SomeRaises;
    forall flag ensures Raised(merged, flag) == Raised(flags, flag) {
    }
  }

  method ReadParts(number: Numbers, d: Dialect, statements: seq<string>) returns (parts: seq<Info>)
    ensures parts == Parts(number, d, statements)
  {
    hide Classify, TrimSpace;
    parts := [];
    for i := 0 to |statements|
      invariant parts == Parts(number, d, statements[..i])
    {
      assert statements[..i + 1][..i] == statements[..i];
      if TrimSpace(statements[i]) != "" {
        parts := parts + [Classify(number, d, statements[i])];
      }
    }
    assert statements[..|statements|] == statements;
  }

  /** Kind, command and flags of the whole script. */
  ghost predicate Flagged(merged: Info, parts: seq<Info>) {
    && merged.isScript
    && merged.kind == TopKind(parts) && merged.command == merged.kind
    && forall flag :: Raised(merged, flag) <==> SomeRaises(parts, flag)
  }

  /** The script read so far with one more part. */
  function Absorb(merged: Info, part: Info): Info {
    var kind := if Rank(part.kind) > Rank(merged.kind) then part.kind else merged.kind;
    merged.(kind := kind, command := if Rank(part.kind) > Rank(merged.kind) then part.kind else merged.command,
            isDrop := merged.isDrop || part.isDrop,
            isTruncate := merged.isTruncate || part.isTruncate,
            touchesSession := merged.touchesSession || part.touchesSession,
            controlsTransaction := merged.controlsTransaction || part.controlsTransaction,
            switchesDatabase := merged.switchesDatabase || part.switchesDatabase)
  }

  lemma SomeRaisesGrows(parts: seq<Info>, part: Info, flag: Flag)
    ensures SomeRaises(parts + [part], flag) <==> SomeRaises(parts, flag) || Raised(part, flag)
  {
    hide Raised;
    var more := parts + [part];
    if SomeRaises(parts, flag) {
      var i :| 0 <= i < |parts| && Raised(parts[i], flag);
      assert Raised(more[i], flag);
    }
    if Raised(part, flag) {
      assert Raised(more[|parts|], flag);
    }
  }

  method MergeFlags(d: Dialect, sql: string, parts: seq<Info>) returns (merged: Info)
    ensures merged.raw == sql && merged.dialect == d && merged.unscoped == [] && Flagged(merged, parts)
  {
    merged := Blank(d, sql).(kind := Session, command := Session, isScript := true);
    for n := 0 to |parts|
      invariant merged.isScript && merged.raw == sql && merged.dialect == d && merged.unscoped == []
      invariant merged.kind == TopKind(parts[..n]) && merged.command == merged.kind
      invariant forall flag :: Raised(merged, flag) <==> SomeRaises(parts[..n], flag)
    {
      hide SomeRaises;
      assert parts[..n + 1] == parts[..n] + [parts[n]];
      forall flag ensures Raised(Absorb(merged, parts[n]), flag) <==> SomeRaises(parts[..n + 1], flag) {
        SomeRaisesGrows(parts[..n], parts[n], flag);
        assert Raised(Absorb(merged, parts[n]), flag) <==> Raised(merged, flag) || Raised(parts[n], flag);
      }
      merged := Absorb(merged, parts[n]);
    }
    assert parts[..|parts|] == parts;
  }

  method DecidingWhere(parts: seq<Info>, kind: Kind) returns (hasWhere: bool)
    ensures hasWhere <==> SomeKind(parts, kind) && !SomeLacksWhere(parts, kind)
  {
    hasWhere := true;
    var deciding := 0;
    for n := 0 to |parts|
      invariant deciding > 0 <==> exists i :: 0 <= i < n && parts[i].kind == kind
      invariant deciding >= 0
      invariant hasWhere <==> !exists i :: 0 <= i < n && parts[i].kind == kind && !parts[i].hasWhere
    {
      if parts[n].kind != kind {
        continue;
      }
      deciding := deciding + 1;
      if !parts[n].hasWhere {
        hasWhere := false;
      }
    }
    if deciding == 0 {
      hasWhere := false;
    }
  }

  method MissingWheres(parts: seq<Info>, merged: Info) returns (unscoped: seq<Kind>)
    requires merged.unscoped == []
    requires merged.hasWhere <==> SomeKind(parts, merged.kind) && !SomeLacksWhere(parts, merged.kind)
    ensures forall k :: k in unscoped <==> LacksBeside(parts, merged.kind, k)
  {
    unscoped := [];
    for n := 0 to |parts|
      invariant forall k :: k in unscoped <==>
                  k != merged.kind && exists i :: 0 <= i < n && parts[i].kind == k && !parts[i].hasWhere && Records(parts[i])
    {
      var part := parts[n];
      if part.hasWhere || merged.(unscoped := unscoped).LacksWhere(part.kind) {
        assert !part.hasWhere && part.kind == merged.kind ==> SomeLacksWhere(parts, merged.kind);
        continue;
      }
      assert part.kind == merged.kind ==> SomeLacksWhere(parts, merged.kind);
      if Records(part) {
        unscoped := unscoped + [part.kind];
      }
    }
  }

  method UnionTables(parts: seq<Info>) returns (tables: seq<TableRef>)
    ensures forall t :: t in tables <==> NamesTable(parts, t)
    ensures forall i, j :: 0 <= i < j < |tables| ==> tables[i] != tables[j]
  {
    tables := [];
    for n := 0 to |parts|
      invariant forall t :: t in tables <==> exists i :: 0 <= i < n && t in parts[i].tables
      invariant forall i, j :: 0 <= i < j < |tables| ==> tables[i] != tables[j]
    {
      var mine := parts[n].tables;
      for m := 0 to |mine|
        invariant forall t :: t in tables <==> t in mine[..m] || exists i :: 0 <= i < n && t in parts[i].tables
        invariant forall i, j :: 0 <= i < j < |tables| ==> tables[i] != tables[j]
      {
        if mine[m] !in tables {
          tables := tables + [mine[m]];
        }
      }
    }
  }
}
