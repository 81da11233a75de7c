/** Identity columns and restores: what a database refuses because of them, and that an undo asks for what it needs. */
module RestoreIdentity {
  import opened Bytes
  import opened RowBackup
  import opened Restore
  import opened RestoreExact
  import opened RestoreDelete

  predicate NamesOneOf(names: seq<string>, columns: set<string>) {
    exists i :: 0 <= i < |names| && ToLower(names[i]) in columns
  }

  predicate AssignsOneOf(assignments: seq<Assignment>, columns: set<string>) {
    exists i :: 0 <= i < |assignments| && ToLower(assignments[i].column) in columns
  }

  /** The statements a database refuses because of identity columns; `always` are the GENERATED ALWAYS ones.
      SQL Server takes explicit identity values exactly while IDENTITY_INSERT is on, and never in an UPDATE;
      PostgreSQL and its kin take them for an ALWAYS column only with OVERRIDING, which no other database can read. */
  predicate RefusesIdentity(e: Engine, sc: Schema, always: set<string>, identityInsert: bool, s: Statement) {
    match s
    case InsertRows(names, overriding, _) =>
      if SQLServerFamily(e) then overriding || (identityInsert != NamesOneOf(names, sc.identity))
      else if PostgresFamily(e) then !overriding && NamesOneOf(names, always)
      else overriding
    case UpdateRow(assignments, _) =>
      if SQLServerFamily(e) then AssignsOneOf(assignments, sc.identity)
      else PostgresFamily(e) && AssignsOneOf(assignments, always)
  }

  /** A plan run in a database that refuses nothing else. Turning IDENTITY_INSERT on fails
      outside SQL Server, and there for a table without identity columns. */
  ghost function Run(e: Engine, sc: Schema, always: set<string>, t: set<Row>, plan: Plan): Outcome {
    if plan.identityInsert && !(SQLServerFamily(e) && sc.identity != {}) then Aborted
    else ExecuteAll(sc, s => RefusesIdentity(e, sc, always, plan.identityInsert, s), t, plan.statements)
  }

  /** What the backup recorded about the identity columns is what the table has. Only PostgreSQL and its kin report ALWAYS. */
  ghost predicate KnowsIdentity(e: Engine, sc: Schema, p: Payload, always: set<string>) {
    && sc.identity == LowerSet(p.identity) && always <= sc.identity
    && (p.identityAlways <==> always != {})
    && (always != {} ==> PostgresFamily(e))
  }

  // ------------------------------------------------------------------
  // The undo of an UPDATE.

  lemma AssignsNoIdentity(sc: Schema, e: Engine, p: Payload, row: seq<BackupValue>)
    requires sc.identity == LowerSet(p.identity)
    ensures !AssignsOneOf(Assignments(e, p, row, Writable(p, 0)), sc.identity)
  {
    hide ToLower, LowerSet, Named, Assignments, Writable;
    var writes := Assignments(e, p, row, Writable(p, 0));
    forall i | 0 <= i < |writes| ensures ToLower(writes[i].column) !in sc.identity {
      AssignedIsPlain(e, p, row, writes[i]);
      NamedInSet(p.identity, writes[i].column);
    }
  }

  lemma {:induction false} UpdatesAvoidIdentity(sc: Schema, e: Engine, p: Payload, always: set<string>, rows: seq<seq<BackupValue>>, s: Statement)
    requires sc.identity == LowerSet(p.identity) && always <= sc.identity && s in Updates(e, p, rows)
    ensures !RefusesIdentity(e, sc, always, false, s)
    decreases |rows|
  {
    hide ToLower, LowerSet, Assignments, Conditions, Writable;
    var n := |rows| - 1;
    if s in Updates(e, p, rows[..n]) {
      UpdatesAvoidIdentity(sc, e, p, always, rows[..n], s);
    } else {
      AssignsNoIdentity(sc, e, p, rows[n]);
    }
  }

  /** Main result: no identity column ever stops the undo of an UPDATE. */
  lemma UpdateRestoreRuns(sc: Schema, e: Engine, item: Item, p: Payload, always: set<string>, t: set<Row>)
    requires KnowsIdentity(e, sc, p, always) && item.kind == UpdateBackup
    ensures Run(e, sc, always, t, PlanOf(e, item, p)) == ExecuteAll(sc, s => false, t, Updates(e, p, p.rows))
  {
    hide ExecuteAll, Updates, LowerSet, RefusesIdentity;
    var statements := Updates(e, p, p.rows);
    forall i | 0 <= i < |statements| ensures !RefusesIdentity(e, sc, always, false, statements[i]) {
      UpdatesAvoidIdentity(sc, e, p, always, p.rows, statements[i]);
    }
    WillingIsFree(sc, s => RefusesIdentity(e, sc, always, false, s), t, statements);
  }

  lemma {:induction false} WillingIsFree(sc: Schema, refuses: Statement -> bool, t: set<Row>, statements: seq<Statement>)
    requires Willing(statements, refuses)
    ensures ExecuteAll(sc, refuses, t, statements) == ExecuteAll(sc, s => false, t, statements)
    decreases |statements|
  {
    hide InsertAll, UpdateRows, MeetsAll;
    if statements != [] {
      WillingIsFree(sc, refuses, t, statements[..|statements| - 1]);
    }
  }

  // ------------------------------------------------------------------
  // The undo of a DELETE.

  /** The names an undo INSERT writes, by the columns they stand for. */
  lemma WrittenNames(p: Payload)
    ensures LowerSet(NamesAt(p, Writable(p, 0))) == Captured(p)
  {
    hide ToLower, Named, Writable, NamesAt, LowerSet, Captured;
    WritableInRange(p, 0);
    NamesAndCells(OtherEngine, p, [], Writable(p, 0));
    NamesAreCaptured(p, Writable(p, 0), NamesAt(p, Writable(p, 0)));
  }

  lemma NamesOneOfSet(names: seq<string>, columns: set<string>)
    ensures NamesOneOf(names, columns) <==> LowerSet(names) * columns != {}
  {
    hide ToLower;
    if NamesOneOf(names, columns) {
      var i :| 0 <= i < |names| && ToLower(names[i]) in columns;
      assert ToLower(names[i]) in LowerSet(names) * columns;
    }
    if LowerSet(names) * columns != {} {
      var c :| c in LowerSet(names) * columns;
      LowerOrigin(names, c);
    }
  }

  /** Whether an identity column is written, by the plan's own test and by the columns captured. */
  lemma UsesWhatIsCaptured(p: Payload)
    ensures UsesIdentity(p, Writable(p, 0)) <==> Captured(p) * LowerSet(p.identity) != {}
  {
    hide ToLower, Named, Writable, NamesAt, LowerSet, Captured;
    var positions := Writable(p, 0);
    WritableInRange(p, 0);
    NamesAndCells(OtherEngine, p, [], positions);
    WrittenNames(p);
    var names := NamesAt(p, positions);
    NamesOneOfSet(names, LowerSet(p.identity));
    forall k | 0 <= k < |positions| ensures Named(p.identity, p.columns[positions[k]]) <==> ToLower(names[k]) in LowerSet(p.identity) {
      NamedInSet(p.identity, p.columns[positions[k]]);
    }
    if UsesIdentity(p, positions) {
      var k :| 0 <= k < |positions| && positions[k] < |p.columns| && Named(p.identity, p.columns[positions[k]]);
      assert ToLower(names[k]) in LowerSet(p.identity);
    }
  }

  lemma {:induction false} InsertsAreAlike(e: Engine, p: Payload, overriding: bool, start: nat)
    ensures forall i :: 0 <= i < |Inserts(e, p, overriding, start)| ==>
                          var s := Inserts(e, p, overriding, start)[i];
                          s.InsertRows? && s.names == NamesAt(p, Writable(p, 0)) && s.overriding == overriding
    ensures |Inserts(e, p, overriding, start)| > 0 <==> start < |p.rows|
    decreases |p.rows| - start
  {
    hide RowCells, Writable, NamesAt, Inserts;
    InsertsFrom(e, p, overriding, start);
    if start < |p.rows| {
      InsertsAreAlike(e, p, overriding, start + ROWS_PER_INSERT);
    }
  }

  /** The undo of a DELETE puts a hundred rows into a statement, in order, and what is left into the last. */
  lemma {:induction false} HundredToAStatement(e: Engine, p: Payload, overriding: bool, start: nat, k: nat)
    requires start + 100 * k < |p.rows|
    ensures var first := start + 100 * k;
            && k < |Inserts(e, p, overriding, start)|
            && Inserts(e, p, overriding, start)[k]
               == InsertRows(NamesAt(p, Writable(p, 0)), overriding, RowCells(e, p, p.rows[first..if first + 100 < |p.rows| then first + 100 else |p.rows|]))
    ensures start + 100 * |Inserts(e, p, overriding, start)| < |p.rows| + 100
    decreases |p.rows| - start
  {
    hide RowCells, Writable, NamesAt, Inserts;
    InsertsFrom(e, p, overriding, start);
    if k > 0 {
      HundredToAStatement(e, p, overriding, start + ROWS_PER_INSERT, k - 1);
    } else if start + ROWS_PER_INSERT < |p.rows| {
      HundredToAStatement(e, p, overriding, start + ROWS_PER_INSERT, 0);
    } else {
      InsertsFrom(e, p, overriding, start + ROWS_PER_INSERT);
    }
  }

  /** IDENTITY_INSERT is asked for exactly when, on SQL Server, the undo writes an identity column. */
  lemma AsksForIdentityInsert(e: Engine, item: Item, p: Payload)
    requires p.rows != []
    ensures var plan := PlanOf(e, item, p);
            plan.identityInsert <==> SQLServerFamily(e) && exists i :: 0 <= i < |plan.statements| && plan.statements[i].InsertRows? && NamesOneOf(plan.statements[i].names, LowerSet(p.identity))
  {
    hide ToLower, Named, Writable, NamesAt, LowerSet, Captured, Inserts, Updates, UsesIdentity, NamesOneOf;
    var plan := PlanOf(e, item, p);
    if item.kind == DeleteBackup {
      var overriding := UsesIdentity(p, Writable(p, 0)) && p.identityAlways && e == PostgresEngine;
      InsertsAreAlike(e, p, overriding, 0);
      WrittenNames(p);
      NamesOneOfSet(NamesAt(p, Writable(p, 0)), LowerSet(p.identity));
      UsesWhatIsCaptured(p);
      assert plan.statements[0].names == NamesAt(p, Writable(p, 0));
    } else {
      forall i | 0 <= i < |plan.statements| ensures plan.statements[i].UpdateRow? {
        UpdatesAreUpdates(e, p, p.rows, plan.statements[i]);
      }
    }
  }

  lemma {:induction false} UpdatesAreUpdates(e: Engine, p: Payload, rows: seq<seq<BackupValue>>, s: Statement)
    requires s in Updates(e, p, rows)
    ensures s.UpdateRow?
    decreases |rows|
  {
    hide Assignments, Conditions, Writable;
    if s in Updates(e, p, rows[..|rows| - 1]) {
      UpdatesAreUpdates(e, p, rows[..|rows| - 1], s);
    }
  }

  /** The engines that are told of ALWAYS columns and never write OVERRIDING for them. */
  predicate ForgetsOverriding(e: Engine) {
    e == PostgreSQL || e == CockroachDB
  }

  lemma RefusedExactly(sc: Schema, e: Engine, p: Payload, always: set<string>, s: Statement)
    requires KnowsIdentity(e, sc, p, always) && sc.identity <= sc.columns && Captured(p) == sc.columns
    requires s.InsertRows? && s.names == NamesAt(p, Writable(p, 0))
    requires s.overriding == (UsesIdentity(p, Writable(p, 0)) && p.identityAlways && e == PostgresEngine)
    ensures RefusesIdentity(e, sc, always, UsesIdentity(p, Writable(p, 0)) && SQLServerFamily(e), s) <==> always != {} && ForgetsOverriding(e)
    ensures UsesIdentity(p, Writable(p, 0)) ==> sc.identity != {}
  {
    hide ToLower, Named, Writable, NamesAt, LowerSet, Captured, UsesIdentity, NamesOneOf;
    WrittenNames(p);
    UsesWhatIsCaptured(p);
    NamesOneOfSet(s.names, sc.identity);
    NamesOneOfSet(s.names, always);
    assert always != {} ==> sc.columns * always == always;
    assert sc.columns * sc.identity == sc.identity;
  }

  /** Main result: in a database that refuses nothing but what identity columns make it refuse, the undo of a DELETE that took
      every selected row completes with the original table, except where an ALWAYS column needs an OVERRIDING that only
      the engine named postgres is given; there it does nothing. */
  lemma DeleteRestoreRuns(sc: Schema, e: Engine, item: Item, p: Payload, always: set<string>, before: set<Row>, selected: seq<Row>, gone: set<Row>, after: set<Row>)
    requires Captures(sc, p, selected) && Captured(p) == sc.columns && Deleted(sc, before, selected, gone, after) && gone == RowSet(selected)
    requires KnowsIdentity(e, sc, p, always) && item.kind == DeleteBackup && selected != []
    ensures Run(e, sc, always, after, PlanOf(e, item, p)) == if always != {} && ForgetsOverriding(e) then Aborted else Done(before)
  {
    hide Captured, Writable, Inserts, UsesIdentity, ExecuteAll, RefusesIdentity, LowerSet, NamesAt, Reads, KeyOf, ToLower, RowSet, Restore.Fits;
    var plan := PlanOf(e, item, p);
    var overriding := UsesIdentity(p, Writable(p, 0)) && p.identityAlways && e == PostgresEngine;
    var refuses := s => RefusesIdentity(e, sc, always, plan.identityInsert, s);
    InsertsAreAlike(e, p, overriding, 0);
    forall i | 0 <= i < |plan.statements| ensures refuses(plan.statements[i]) <==> always != {} && ForgetsOverriding(e) {
      RefusedExactly(sc, e, p, always, plan.statements[i]);
    }
    RefusedExactly(sc, e, p, always, plan.statements[0]);
    if always != {} && ForgetsOverriding(e) {
      FirstIsRefused(sc, refuses, after, plan.statements);
    } else {
      DeleteRestoreIsExact(sc, e, item, p, refuses, before, selected, gone, after);
    }
  }

  lemma FirstIsRefused(sc: Schema, refuses: Statement -> bool, t: set<Row>, statements: seq<Statement>)
    requires statements != [] && refuses(statements[0])
    ensures ExecuteAll(sc, refuses, t, statements).Aborted?
  {
    assert statements == [statements[0]] + statements[1..];
    ExecuteFirst(sc, refuses, t, statements[0], statements[1..]);
  }
}
