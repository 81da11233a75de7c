/** The guardrail decision, and what merging a script does to it. */
module Policy {
  import opened Prelude
  import opened Bytes
  import opened Lexer
  import opened Window
  import opened Splitter
  import opened SplitAgreement
  import opened Resplit
  import opened Folder
  import opened Classifier
  import opened Script

  datatype Rule =
    | MultiStatement | UnknownStatement | ReadOnlyUnclassified | Unclassified
    | SelectWithoutWhere | DeleteWithoutWhere | UpdateWithoutWhere
    | DropRule | TruncateRule | ReadOnlyRole

  datatype Risk = Low | Medium | High | Critical

  /** The rule also fixes the reason text. */
  datatype Decision = Allow | Deny(rule: Rule, risk: Risk)

  /** The caller's role and the workspace's policies. */
  datatype Settings = Settings(readOnly: bool, cleared: bool, disabled: set<Rule>, enabled: set<Rule>) {
    predicate Active(rule: Rule) {
      !cleared && rule !in disabled
    }
  }

  function Evaluate(s: Settings, stmt: Info): Decision {
    if stmt.isScript && MultiStatement in s.enabled && s.Active(MultiStatement) then Deny(MultiStatement, High)
    else if stmt.kind == Unrecognised then Deny(UnknownStatement, Critical)
    else if stmt.kind == Other && s.readOnly && !s.cleared then Deny(ReadOnlyUnclassified, High)
    else if stmt.kind == Other && Unclassified in s.enabled && s.Active(Unclassified) then Deny(Unclassified, High)
    else if stmt.LacksWhere(Select) && |stmt.tables| > 0 && s.Active(SelectWithoutWhere) then Deny(SelectWithoutWhere, Medium)
    else if stmt.LacksWhere(Delete) && s.Active(DeleteWithoutWhere) then Deny(DeleteWithoutWhere, Critical)
    else if stmt.LacksWhere(Update) && s.Active(UpdateWithoutWhere) then Deny(UpdateWithoutWhere, Critical)
    else if stmt.isDrop && s.Active(DropRule) then Deny(DropRule, Critical)
    else if stmt.isTruncate && s.Active(TruncateRule) then Deny(TruncateRule, High)
    else if s.readOnly && IsWrite(stmt.kind) && !s.cleared then Deny(ReadOnlyRole, High)
    else Allow
  }

  predicate Denied(s: Settings, stmt: Info) {
    Evaluate(s, stmt).Deny?
  }

  /** What reading one statement alone produces. */
  predicate Single(part: Info) {
    !part.isScript && part.unscoped == []
  }

  ghost predicate AllSingle(parts: seq<Info>) {
    parts != [] && forall i :: 0 <= i < |parts| ==> Single(parts[i])
  }

  ghost predicate SomeDenied(s: Settings, parts: seq<Info>) {
    exists i :: 0 <= i < |parts| && Denied(s, parts[i])
  }

  // ------------------------------------------------------------------
  // The deciding kind.

  lemma {:induction false} TopKindIsHighest(parts: seq<Info>)
    ensures forall i :: 0 <= i < |parts| ==> Rank(parts[i].kind) <= Rank(TopKind(parts))
    ensures parts != [] ==> SomeKind(parts, TopKind(parts))
    decreases |parts|
  {
    hide Rank;
    if parts != [] {
      var front, last := parts[..|parts| - 1], |parts| - 1;
      TopKindIsHighest(front);
      assert forall i :: 0 <= i < last ==> parts[i] == front[i];
      if TopKind(parts) == parts[last].kind {
      } else if front != [] {
        var i :| 0 <= i < |front| && front[i].kind == TopKind(front);
        assert parts[i].kind == TopKind(parts);
      } else {
        RankZero(parts[last].kind);
      }
    }
  }

  lemma RankZero(k: Kind)
    ensures Rank(k) <= Rank(Session) ==> k == Session
  {
  }

  /** The merged script lacks a WHERE for updates, or deletes, exactly when one of its parts does. */
  lemma LacksWhereExactly(merged: Info, parts: seq<Info>, k: Kind)
    requires Merges(merged, parts) && parts != [] && (k == Update || k == Delete)
    ensures merged.LacksWhere(k) <==> SomeLacksWhere(parts, k)
  {
    hide TopKind, SomeRaises;
    TopKindIsHighest(parts);
  }

  ghost predicate SomeTables(parts: seq<Info>) {
    exists i :: 0 <= i < |parts| && parts[i].tables != []
  }

  lemma MergedTables(merged: Info, parts: seq<Info>)
    requires Merges(merged, parts)
    ensures |merged.tables| > 0 <==> SomeTables(parts)
  {
    hide TopKind, SomeRaises, SomeKind, SomeLacksWhere, SomeUnscopedSelect;
    if |merged.tables| > 0 {
      assert merged.tables[0] in merged.tables;
    }
    if SomeTables(parts) {
      var i :| 0 <= i < |parts| && parts[i].tables != [];
      assert parts[i].tables[0] in parts[i].tables;
      assert parts[i].tables[0] in merged.tables;
    }
  }

  /** What Evaluate reads of a script, in terms of its parts. */
  ghost predicate ReadsAs(merged: Info, parts: seq<Info>) {
    && merged.isScript
    && merged.kind == TopKind(parts)
    && (merged.LacksWhere(Delete) <==> SomeLacksWhere(parts, Delete))
    && (merged.LacksWhere(Update) <==> SomeLacksWhere(parts, Update))
    && (merged.LacksWhere(Select) <==> SomeUnscopedSelect(parts) || (TopKind(parts) == Select && SomeLacksWhere(parts, Select)))
    && (|merged.tables| > 0 <==> SomeTables(parts))
    && (merged.isDrop <==> SomeRaises(parts, Drops))
    && (merged.isTruncate <==> SomeRaises(parts, Truncates))
  }

  lemma MergedReadsAs(merged: Info, parts: seq<Info>)
    requires Merges(merged, parts) && parts != []
    ensures ReadsAs(merged, parts)
  {
    LacksWhereExactly(merged, parts, Update);
    LacksWhereExactly(merged, parts, Delete);
    MergedTables(merged, parts);
    TopKindIsHighest(parts);
    SelectReadsAs(merged, parts);
    FlagReadsAs(merged, parts);
  }

  lemma FlagReadsAs(merged: Info, parts: seq<Info>)
    requires Merges(merged, parts)
    ensures merged.isDrop <==> SomeRaises(parts, Drops)
    ensures merged.isTruncate <==> SomeRaises(parts, Truncates)
  {
    hide TopKind, SomeRaises, SomeKind, SomeLacksWhere, SomeUnscopedSelect;
    assert Raised(merged, Drops) <==> SomeRaises(parts, Drops);
    assert Raised(merged, Truncates) <==> SomeRaises(parts, Truncates);
  }

  lemma SelectReadsAs(merged: Info, parts: seq<Info>)
    requires Merges(merged, parts) && parts != []
    ensures merged.LacksWhere(Select)
       <==> SomeUnscopedSelect(parts) || (TopKind(parts) == Select && SomeLacksWhere(parts, Select))
  {
    hide TopKind, SomeRaises;
    TopKindIsHighest(parts);
  }

  // ------------------------------------------------------------------
  // A script against its statements.

  /** The one way a script is refused though none of its statements is: a SELECT without
      a row set to scope makes the WHERE of the script's other SELECTs not count. */
  ghost predicate OverstrictSelect(s: Settings, parts: seq<Info>) {
    s.Active(SelectWithoutWhere) && TopKind(parts) == Select && SomeLacksWhere(parts, Select) && SomeTables(parts)
  }

  predicate ForbidsScripts(s: Settings) {
    MultiStatement in s.enabled && s.Active(MultiStatement)
  }

  lemma PartDeniedBecause(s: Settings, part: Info)
    requires Single(part)
    ensures Denied(s, part) <==>
              || part.kind == Unrecognised
              || (part.kind == Other && !s.cleared && (s.readOnly || (Unclassified in s.enabled && s.Active(Unclassified))))
              || (part.kind == Select && !part.hasWhere && part.tables != [] && s.Active(SelectWithoutWhere))
              || (part.kind == Delete && !part.hasWhere && s.Active(DeleteWithoutWhere))
              || (part.kind == Update && !part.hasWhere && s.Active(UpdateWithoutWhere))
              || (part.isDrop && s.Active(DropRule))
              || (part.isTruncate && s.Active(TruncateRule))
              || (s.readOnly && !s.cleared && IsWrite(part.kind))
  {
  }

  lemma DeniedPartDeniesScript(s: Settings, merged: Info, parts: seq<Info>, i: nat)
    requires ReadsAs(merged, parts) && AllSingle(parts) && i < |parts| && Denied(s, parts[i])
    ensures Denied(s, merged)
  {
    hide TopKind, Denied, SomeKind;
    PartDeniedBecause(s, parts[i]);
    TopKindIsHighest(parts);
    var part := parts[i];
    assert part.isDrop ==> Raised(part, Drops);
    assert part.isTruncate ==> Raised(part, Truncates);
    assert Rank(part.kind) <= Rank(merged.kind);
    DeniedUnfold(s, merged);
  }

  lemma DeniedUnfold(s: Settings, stmt: Info)
    ensures Denied(s, stmt) <==>
              || (stmt.isScript && ForbidsScripts(s))
              || stmt.kind == Unrecognised
              || (stmt.kind == Other && !s.cleared && (s.readOnly || (Unclassified in s.enabled && s.Active(Unclassified))))
              || (stmt.LacksWhere(Select) && |stmt.tables| > 0 && s.Active(SelectWithoutWhere))
              || (stmt.LacksWhere(Delete) && s.Active(DeleteWithoutWhere))
              || (stmt.LacksWhere(Update) && s.Active(UpdateWithoutWhere))
              || (stmt.isDrop && s.Active(DropRule))
              || (stmt.isTruncate && s.Active(TruncateRule))
              || (s.readOnly && !s.cleared && IsWrite(stmt.kind))
  {
  }

  /** A denied script is denied for one of its parts, by the script rule, or by the overstrict SELECT. */
  lemma DeniedScriptHasReason(s: Settings, merged: Info, parts: seq<Info>)
    requires ReadsAs(merged, parts) && AllSingle(parts) && Denied(s, merged)
    ensures ForbidsScripts(s) || SomeDenied(s, parts) || OverstrictSelect(s, parts)
  {
    hide TopKind, Denied;
    DeniedUnfold(s, merged);
    TopKindIsHighest(parts);
    var top :| 0 <= top < |parts| && parts[top].kind == merged.kind;
    PartDeniedBecause(s, parts[top]);
    if SomeLacksWhere(parts, Delete) {
      var i :| 0 <= i < |parts| && parts[i].kind == Delete && !parts[i].hasWhere;
      PartDeniedBecause(s, parts[i]);
    }
    if SomeLacksWhere(parts, Update) {
      var i :| 0 <= i < |parts| && parts[i].kind == Update && !parts[i].hasWhere;
      PartDeniedBecause(s, parts[i]);
    }
    if SomeUnscopedSelect(parts) {
      var i :| 0 <= i < |parts| && parts[i].kind == Select && !parts[i].hasWhere && parts[i].tables != [];
      PartDeniedBecause(s, parts[i]);
    }
    if SomeRaises(parts, Drops) {
      var i :| 0 <= i < |parts| && Raised(parts[i], Drops);
      PartDeniedBecause(s, parts[i]);
    }
    if SomeRaises(parts, Truncates) {
      var i :| 0 <= i < |parts| && Raised(parts[i], Truncates);
      PartDeniedBecause(s, parts[i]);
    }
  }

  /** Main result: under any settings, a script is denied exactly when scripts are forbidden, one of its
      statements is denied alone, or a SELECT without WHERE and without tables stands beside a read of a table. */
  lemma ScriptDeniedExactly(s: Settings, merged: Info, parts: seq<Info>)
    requires Merges(merged, parts) && AllSingle(parts)
    ensures Denied(s, merged) <==> ForbidsScripts(s) || SomeDenied(s, parts) || OverstrictSelect(s, parts)
  {
    hide Merges, ReadsAs, Denied, OverstrictSelect, ForbidsScripts;
    MergedReadsAs(merged, parts);
    if Denied(s, merged) {
      DeniedScriptHasReason(s, merged, parts);
    }
    if SomeDenied(s, parts) {
      var i :| 0 <= i < |parts| && Denied(s, parts[i]);
      DeniedPartDeniesScript(s, merged, parts, i);
    }
    OverstrictIsDenied(s, merged, parts);
  }

  lemma OverstrictIsDenied(s: Settings, merged: Info, parts: seq<Info>)
    requires ReadsAs(merged, parts)
    ensures ForbidsScripts(s) || OverstrictSelect(s, parts) ==> Denied(s, merged)
  {
    hide TopKind, Denied, SomeLacksWhere, SomeTables, SomeUnscopedSelect, SomeRaises;
    DeniedUnfold(s, merged);
  }

  /** The overstrict case exists: SELECT 1 beside a SELECT with a WHERE, neither refused alone. */
  lemma ScriptCanBeJudgedHarder(s: Settings, merged: Info, one: Info, scoped: Info)
    requires Single(one) && one.kind == Select && !one.hasWhere && one.tables == [] && !Denied(s, one)
    requires Single(scoped) && scoped.kind == Select && scoped.hasWhere && scoped.tables != [] && !Denied(s, scoped)
    requires s.Active(SelectWithoutWhere) && Merges(merged, [one, scoped])
    ensures Denied(s, merged) && !SomeDenied(s, [one, scoped])
  {
    hide Merges, Denied;
    var parts := [one, scoped];
    assert parts[0] == one && parts[1] == scoped;
    assert parts[..1] == [one] && [one][..0] == [];
    assert TopKind([one]) == Select;
    assert TopKind(parts) == Select;
    assert SomeLacksWhere(parts, Select) && SomeTables(parts);
    ScriptDeniedExactly(s, merged, parts);
  }

  // ------------------------------------------------------------------
  // Order of statements.

  lemma SameParts(p: seq<Info>, q: seq<Info>)
    requires multiset(p) == multiset(q)
    ensures |p| == |q|
    ensures forall i :: 0 <= i < |p| ==> p[i] in q
    ensures forall i :: 0 <= i < |q| ==> q[i] in p
  {
    assert |multiset(p)| == |p| && |multiset(q)| == |q|;
    forall i | 0 <= i < |p| ensures p[i] in q {
      assert p[i] in multiset(p);
    }
    forall i | 0 <= i < |q| ensures q[i] in p {
      assert q[i] in multiset(q);
    }
  }

  lemma SameReadings(p: seq<Info>, q: seq<Info>)
    requires multiset(p) == multiset(q)
    ensures forall k :: SomeLacksWhere(p, k) <==> SomeLacksWhere(q, k)
    ensures SomeUnscopedSelect(p) <==> SomeUnscopedSelect(q)
    ensures SomeTables(p) <==> SomeTables(q)
    ensures forall flag :: SomeRaises(p, flag) <==> SomeRaises(q, flag)
  {
    SameParts(p, q);
  }

  lemma SameTopRank(p: seq<Info>, q: seq<Info>)
    requires multiset(p) == multiset(q)
    ensures Rank(TopKind(p)) == Rank(TopKind(q))
  {
    hide Rank;
    SameParts(p, q);
    TopKindIsHighest(p);
    TopKindIsHighest(q);
    if p != [] {
      var i :| 0 <= i < |p| && p[i].kind == TopKind(p);
      assert p[i] in q;
      var j :| 0 <= j < |q| && q[j].kind == TopKind(q);
      assert q[j] in p;
    }
  }

  /** Main result: the verdict on a script does not depend on the order of its statements. */
  lemma OrderDoesNotMatter(s: Settings, a: Info, p: seq<Info>, b: Info, q: seq<Info>)
    requires Merges(a, p) && Merges(b, q) && p != [] && multiset(p) == multiset(q)
    ensures Evaluate(s, a) == Evaluate(s, b)
  {
    hide Merges, TopKind, SomeLacksWhere, SomeTables, SomeUnscopedSelect, SomeRaises;
    SameParts(p, q);
    MergedReadsAs(a, p);
    MergedReadsAs(b, q);
    SameReadings(p, q);
    SameTopRank(p, q);
  }

  /** The kind the script is named by may differ, so the verdict does not come from equal readings. */
  lemma OrderCanChangeTheKind(u: Info, d: Info)
    requires u.kind == Update && d.kind == Delete
    ensures multiset([u, d]) == multiset([d, u])
    ensures TopKind([u, d]) == Update && TopKind([d, u]) == Delete
  {
    assert [u, d][..1] == [u] && [d, u][..1] == [d];
    assert [u][..0] == [] && [d][..0] == [];
    assert TopKind([u]) == Update && TopKind([d]) == Delete;
  }

  // ------------------------------------------------------------------
  // From text to verdict.

  /** What parsing a text returns; of a script, up to the order of its tables and kinds. */
  ghost predicate ParsedAs(number: Numbers, d: Dialect, sql: string, info: Info) {
    var pieces := Split(d, sql);
    if pieces.Err? || pieces.value == [] then info == Blank(d, sql)
    else if |pieces.value| == 1 then info == Classify(number, d, pieces.value[0])
    else Merges(info, Parts(number, d, pieces.value))
  }

  method ParseUncached(number: Numbers, d: Dialect, sql: string) returns (info: Info)
    ensures ParsedAs(number, d, sql, info)
  {
    hide Split, Classify, Parts, Merges;
    var statements := SplitStatements(d, sql);
    if statements.Err? || statements.value == [] {
      return Blank(d, sql);
    }
    if |statements.value| != 1 {
      PiecesAreTrimmed(d, sql);
      PartsAreReadings(number, d, statements.value);
      info := MergeScript(number, d, sql, statements.value);
      return;
    }
    info := Classify(number, d, statements.value[0]);
  }

  lemma {:induction false} EachPieceIsTrimmed(s: string, gs: seq<Segment>, k: nat)
    requires k < |Pieces(s, gs)|
    ensures TrimSpace(Pieces(s, gs)[k]) == Pieces(s, gs)[k] != ""
    decreases |gs|
  {
    hide TrimSpace, Text;
    var first := Piece(s, gs[0].start, gs[0].end);
    TrimTwice(Text(s, gs[0].start, gs[0].end));
    if k >= |first| {
      EachPieceIsTrimmed(s, gs[1..], k - |first|);
    }
  }

  lemma PiecesAreTrimmed(d: Dialect, sql: string)
    requires Split(d, sql).Ok?
    ensures forall k :: 0 <= k < |Split(d, sql).value| ==> TrimSpace(Split(d, sql).value[k]) == Split(d, sql).value[k] != ""
  {
    hide TrimSpace, Lex, Pieces, Segments;
    forall k | 0 <= k < |Split(d, sql).value| ensures TrimSpace(Split(d, sql).value[k]) == Split(d, sql).value[k] != "" {
      EachPieceIsTrimmed(sql, Segments(sql, Lex(d, sql).value, 0, 0), k);
    }
  }

  lemma {:induction false} PartsAreReadings(number: Numbers, d: Dialect, statements: seq<string>)
    requires forall i :: 0 <= i < |statements| ==> TrimSpace(statements[i]) != ""
    ensures |Parts(number, d, statements)| == |statements|
    ensures forall i :: 0 <= i < |statements| ==> Parts(number, d, statements)[i] == Classify(number, d, statements[i])
    decreases |statements|
  {
    hide Classify, TrimSpace;
    if statements != [] {
      var front := statements[..|statements| - 1];
      PartsAreReadings(number, d, front);
      assert forall i :: 0 <= i < |front| ==> front[i] == statements[i];
    }
  }

  lemma ReadingsAreSingle(number: Numbers, d: Dialect, statement: string)
    ensures Single(Classify(number, d, statement))
  {
    hide TrimSpace, Lex, FirstKinds, ExtractTables, HasEffectiveWhere;
  }

  /** A text with several pieces is denied exactly for what its pieces are read as. */
  lemma ScriptTextDeniedExactly(number: Numbers, d: Dialect, sql: string, merged: Info, s: Settings)
    requires ParsedAs(number, d, sql, merged) && Split(d, sql).Ok? && |Split(d, sql).value| > 1
    ensures var parts := Parts(number, d, Split(d, sql).value);
            && |parts| == |Split(d, sql).value| && (forall i :: 0 <= i < |parts| ==> parts[i] == Classify(number, d, Split(d, sql).value[i]))
            && (Denied(s, merged) <==> ForbidsScripts(s) || SomeDenied(s, parts) || OverstrictSelect(s, parts))
  {
    hide Split, Merges, Classify, Denied, Single, OverstrictSelect, ForbidsScripts;
    var pieces := Split(d, sql).value;
    PiecesAreTrimmed(d, sql);
    PartsAreReadings(number, d, pieces);
    forall k | 0 <= k < |pieces| ensures Single(Parts(number, d, pieces)[k]) {
      ReadingsAreSingle(number, d, pieces[k]);
    }
    ScriptDeniedExactly(s, merged, Parts(number, d, pieces));
  }

  /** No token of the text ends a statement, or it cannot be read at all. */
  predicate StaysWhole(d: Dialect, piece: string) {
    Lex(d, piece).Ok? ==> EndFrom(Lex(d, piece).value, 0) == |Lex(d, piece).value|
  }

  lemma WholeTextReads(number: Numbers, d: Dialect, piece: string, alone: Info)
    requires TrimSpace(piece) == piece != "" && StaysWhole(d, piece) && ParsedAs(number, d, piece, alone)
    ensures alone == Classify(number, d, piece)
  {
    hide TrimSpace, Lex, EndFrom, ClassifyTokens, Merges;
    SplitLexed(d, piece);
    if Lex(d, piece).Ok? {
      SplitWhole(d, piece, Lex(d, piece).value);
    }
  }

  /** Main result: a statement of a script that stays whole when it is sent alone is refused
      alone only under settings that refuse the script. */
  lemma ScriptIsNotMoreLenient(number: Numbers, d: Dialect, sql: string, merged: Info, i: nat, alone: Info, s: Settings)
    requires ParsedAs(number, d, sql, merged) && Split(d, sql).Ok? && i < |Split(d, sql).value|
    requires StaysWhole(d, Split(d, sql).value[i]) && ParsedAs(number, d, Split(d, sql).value[i], alone)
    ensures Denied(s, alone) ==> Denied(s, merged)
  {
    hide Split, Merges, Classify, Denied, Single, OverstrictSelect, StaysWhole, TrimSpace;
    var pieces := Split(d, sql).value;
    PiecesAreTrimmed(d, sql);
    WholeTextReads(number, d, pieces[i], alone);
    if |pieces| > 1 && Denied(s, alone) {
      ScriptTextDeniedExactly(number, d, sql, merged, s);
      assert Denied(s, Parts(number, d, pieces)[i]);
    }
  }

  /** Which statements stay whole, by their words: PieceIsOneStatement for the piece of a segment. */
  lemma StaysWholeByWords(d: Dialect, sql: string, ts: seq<Token>, g: Segment)
    requires PlainComments(d) && Lex(d, sql) == Ok(ts) && g in Segments(sql, ts, 0, 0)
    requires Agrees(d, sql, ts, g) && TrimSpace(Text(sql, g.start, g.end)) != ""
    ensures var piece := TrimSpace(Text(sql, g.start, g.end));
            && Lex(d, piece).Ok?
            && (StaysWhole(d, piece) <==> RoutineDefinition(Lex(d, piece).value) || NoSemicolon(Lex(d, piece).value))
  {
    hide *;
    var text := Text(sql, g.start, g.end);
    var us := PieceShare(d, sql, ts, g);
    TrimTwice(text);
    PieceIsOneStatement(d, sql, ts, g);
    SplitWhole(d, TrimSpace(text), us);
    WholeUnfold(d, TrimSpace(text));
  }

  lemma WholeUnfold(d: Dialect, piece: string)
    ensures StaysWhole(d, piece) <==> (Lex(d, piece).Ok? ==> EndFrom(Lex(d, piece).value, 0) == |Lex(d, piece).value|)
  {
  }

  // ------------------------------------------------------------------
  // When one reading is refused wherever another is.

  predicate Scans(info: Info) {
    info.LacksWhere(Select) && |info.tables| > 0
  }

  /** Every charge against a is one against m, or m cannot be read. */
  predicate Covers(m: Info, a: Info) {
    || m.kind == Unrecognised
    || (&& a.kind != Unrecognised
        && (a.isScript ==> m.isScript) && (a.kind == Other ==> m.kind == Other)
        && (Scans(a) ==> Scans(m)) && (a.LacksWhere(Delete) ==> m.LacksWhere(Delete)) && (a.LacksWhere(Update) ==> m.LacksWhere(Update))
        && (a.isDrop ==> m.isDrop) && (a.isTruncate ==> m.isTruncate)
        && (IsWrite(a.kind) ==> IsWrite(m.kind) || m.kind == Other))
  }

  const RULES := {MultiStatement, UnknownStatement, ReadOnlyUnclassified, Unclassified, SelectWithoutWhere,
                  DeleteWithoutWhere, UpdateWithoutWhere, DropRule, TruncateRule, ReadOnlyRole}

  /** Settings under which one rule alone is in force. */
  function Only(rule: Rule, readOnly: bool): Settings {
    Settings(readOnly, false, RULES - {rule}, {rule})
  }

  /** What one rule alone charges a reading with. */
  predicate Charged(rule: Rule, info: Info) {
    match rule
    case MultiStatement => info.isScript
    case Unclassified => info.kind == Other
    case SelectWithoutWhere => Scans(info)
    case DeleteWithoutWhere => info.LacksWhere(Delete)
    case UpdateWithoutWhere => info.LacksWhere(Update)
    case DropRule => info.isDrop
    case TruncateRule => info.isTruncate
    case _ => false
  }

  lemma DeniedByOne(rule: Rule, info: Info)
    ensures Denied(Only(rule, false), info) <==> info.kind == Unrecognised || Charged(rule, info)
    ensures Denied(Only(ReadOnlyRole, true), info) <==> info.kind == Unrecognised || info.kind == Other || IsWrite(info.kind)
  {
    hide Denied, IsWrite;
    DeniedUnfold(Only(rule, false), info);
    DeniedUnfold(Only(ReadOnlyRole, true), info);
  }

  lemma Charge(rule: Rule, m: Info, a: Info)
    requires forall s :: Denied(s, a) ==> Denied(s, m)
    ensures a.kind == Unrecognised || Charged(rule, a) ==> m.kind == Unrecognised || Charged(rule, m)
    ensures a.kind == Other || IsWrite(a.kind) ==> m.kind == Unrecognised || m.kind == Other || IsWrite(m.kind)
  {
    hide Denied, Only, IsWrite;
    DeniedByOne(rule, m);
    DeniedByOne(rule, a);
    assert Denied(Only(rule, false), a) ==> Denied(Only(rule, false), m);
    assert Denied(Only(ReadOnlyRole, true), a) ==> Denied(Only(ReadOnlyRole, true), m);
  }

  /** Exactness: m is refused under all settings that refuse a if and only if it covers a. */
  lemma RefusedWheneverExactly(m: Info, a: Info)
    ensures (forall s :: Denied(s, a) ==> Denied(s, m)) <==> Covers(m, a)
  {
    hide Denied, Only, IsWrite;
    if Covers(m, a) {
      forall s | Denied(s, a) ensures Denied(s, m) {
        DeniedUnfold(s, a);
        DeniedUnfold(s, m);
      }
    }
    if forall s :: Denied(s, a) ==> Denied(s, m) {
      Charge(UnknownStatement, m, a);
      Charge(MultiStatement, m, a);
      Charge(Unclassified, m, a);
      Charge(SelectWithoutWhere, m, a);
      Charge(DeleteWithoutWhere, m, a);
      Charge(UpdateWithoutWhere, m, a);
      Charge(DropRule, m, a);
      Charge(TruncateRule, m, a);
    }
  }
}
