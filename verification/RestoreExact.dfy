/** What the restore of an UPDATE does to any table, and from that: it is exact
    or does nothing, and it leaves later edits of other columns alone. */
module RestoreExact {
  import opened Bytes
  import opened RowBackup
  import opened Restore

  function LowerSet(names: seq<string>): set<string> {
    set i | 0 <= i < |names| :: ToLower(names[i])
  }

  /** The non-generated columns the backup read. */
  function Captured(p: Payload): set<string> {
    set i | 0 <= i < |p.columns| && !Named(p.generated, p.columns[i]) :: ToLower(p.columns[i])
  }

  /** The backup read `selected`, row by row, with enough of each row to find it again. */
  ghost predicate Captures(sc: Schema, p: Payload, selected: seq<Row>) {
    && |p.rows| == |selected|
    && sc.key == LowerSet(p.key) && sc.identity == LowerSet(p.identity)
    && sc.key <= Captured(p) <= sc.columns
    && (forall i, j :: 0 <= i < j < |p.columns| ==> ToLower(p.columns[i]) != ToLower(p.columns[j]))
    && (forall i :: 0 <= i < |selected| ==> Fits(sc, selected[i]))
    && (forall i, j :: 0 <= i < j < |selected| ==> KeyOf(sc, selected[i]) != KeyOf(sc, selected[j]))
    && (forall i :: 0 <= i < |selected| ==> Reads(p, p.rows[i], selected[i]))
  }

  ghost predicate Reads(p: Payload, row: seq<BackupValue>, r: Row) {
    && |row| == |p.columns|
    && forall c :: 0 <= c < |p.columns| && !Named(p.generated, p.columns[c]) ==> ToLower(p.columns[c]) in r && row[c] == r[ToLower(p.columns[c])]
  }

  /** The columns a restore writes. */
  function WrittenBack(sc: Schema, p: Payload): set<string> {
    Captured(p) - sc.key - sc.identity
  }

  /** r with the written-back columns as they were in `was`. */
  function PutBack(w: set<string>, was: Row, r: Row): Row {
    r + (was - (was.Keys - w * r.Keys))
  }

  // ------------------------------------------------------------------
  // One undo statement.

  lemma NamedInSet(names: seq<string>, column: string)
    ensures Named(names, column) <==> ToLower(column) in LowerSet(names)
  {
    hide ToLower;
  }

  lemma {:induction false} ConditionMembers(e: Engine, p: Payload, row: seq<BackupValue>, positions: seq<nat>, c: Condition)
    ensures c in Conditions(e, p, row, positions) <==> exists k :: 0 <= k < |positions| && c in ConditionAt(e, p, row, positions[k])
    decreases |positions|
  {
    hide ConditionAt;
    if positions != [] {
      ConditionMembers(e, p, row, positions[1..], c);
      var rest := positions[1..];
      assert forall k :: 0 <= k < |rest| ==> rest[k] == positions[k + 1];
      if exists k :: 0 <= k < |positions| && c in ConditionAt(e, p, row, positions[k]) {
        var k :| 0 <= k < |positions| && c in ConditionAt(e, p, row, positions[k]);
        if k > 0 {
          assert c in ConditionAt(e, p, row, rest[k - 1]);
        }
      }
    }
  }

  lemma KeyCondition(sc: Schema, e: Engine, p: Payload, row: seq<BackupValue>, was: Row, r: Row, i: nat)
    requires Reads(p, row, was) && Fits(sc, was) && Fits(sc, r) && sc.key == LowerSet(p.key)
    requires i < |p.columns| && !Named(p.generated, p.columns[i])
    ensures !Named(p.key, p.columns[i]) ==> ConditionAt(e, p, row, i) == []
    ensures Named(p.key, p.columns[i]) ==>
              && ToLower(p.columns[i]) in sc.key
              && |ConditionAt(e, p, row, i)| == 1
              && (Meets(r, ConditionAt(e, p, row, i)[0]) <==> r[ToLower(p.columns[i])] == was[ToLower(p.columns[i])])
  {
    hide ToLower, LowerSet, Named;
    NamedInSet(p.key, p.columns[i]);
  }

  /** The WHERE of an undo statement finds exactly the row with the backed-up key. */
  lemma ConditionsFindKey(sc: Schema, e: Engine, p: Payload, row: seq<BackupValue>, was: Row, r: Row)
    requires Reads(p, row, was) && Fits(sc, was) && Fits(sc, r) && sc.key == LowerSet(p.key) && sc.key <= Captured(p)
    ensures MeetsAll(r, Conditions(e, p, row, Writable(p, 0))) <==> KeyOf(sc, r) == KeyOf(sc, was)
  {
    hide ToLower, LowerSet, Named, Meets, ConditionAt, Conditions, Writable;
    var positions := Writable(p, 0);
    var cs := Conditions(e, p, row, positions);
    WritableInRange(p, 0);
    if KeyOf(sc, r) == KeyOf(sc, was) {
      forall j | 0 <= j < |cs| ensures Meets(r, cs[j]) {
        ConditionMembers(e, p, row, positions, cs[j]);
        var k :| 0 <= k < |positions| && cs[j] in ConditionAt(e, p, row, positions[k]);
        KeyCondition(sc, e, p, row, was, r, positions[k]);
        var c := ToLower(p.columns[positions[k]]);
        assert KeyOf(sc, r)[c] == KeyOf(sc, was)[c];
      }
    }
    if MeetsAll(r, cs) {
      forall c | c in sc.key ensures r[c] == was[c] {
        assert c in Captured(p);
        var i :| 0 <= i < |p.columns| && !Named(p.generated, p.columns[i]) && ToLower(p.columns[i]) == c;
        NamedInSet(p.key, p.columns[i]);
        KeyCondition(sc, e, p, row, was, r, i);
        var k :| 0 <= k < |positions| && positions[k] == i;
        ConditionMembers(e, p, row, positions, ConditionAt(e, p, row, i)[0]);
        assert ConditionAt(e, p, row, positions[k])[0] in cs;
      }
    }
  }

  lemma {:induction false} AssignmentMembers(e: Engine, p: Payload, row: seq<BackupValue>, positions: seq<nat>, a: Assignment)
    ensures a in Assignments(e, p, row, positions) <==> exists k :: 0 <= k < |positions| && a in AssignmentAt(e, p, row, positions[k])
    decreases |positions|
  {
    hide AssignmentAt;
    if positions != [] {
      AssignmentMembers(e, p, row, positions[1..], a);
      var rest := positions[1..];
      assert forall k :: 0 <= k < |rest| ==> rest[k] == positions[k + 1];
      if exists k :: 0 <= k < |positions| && a in AssignmentAt(e, p, row, positions[k]) {
        var k :| 0 <= k < |positions| && a in AssignmentAt(e, p, row, positions[k]);
        if k > 0 {
          assert a in AssignmentAt(e, p, row, rest[k - 1]);
        }
      }
    }
  }

  /** Every assignment gives its column the old value, so the order of assignments does not matter. */
  ghost predicate FromRow(assignments: seq<Assignment>, was: Row) {
    forall i :: 0 <= i < |assignments| ==>
      ToLower(assignments[i].column) in was && CellValue(assignments[i].cell) == was[ToLower(assignments[i].column)]
  }

  function AssignedSet(assignments: seq<Assignment>): set<string> {
    set i | 0 <= i < |assignments| :: ToLower(assignments[i].column)
  }

  lemma {:induction false} AssignPutsBack(assignments: seq<Assignment>, was: Row, r: Row)
    requires FromRow(assignments, was) && AssignedSet(assignments) <= r.Keys
    ensures Assign(r, assignments) == PutBack(AssignedSet(assignments), was, r)
    decreases |assignments|
  {
    hide ToLower;
    if assignments != [] {
      var front, last := assignments[..|assignments| - 1], assignments[|assignments| - 1];
      assert AssignedSet(assignments) == AssignedSet(front) + {ToLower(last.column)};
      AssignPutsBack(front, was, r);
    }
  }

  lemma AssignmentsAreWrittenBack(sc: Schema, e: Engine, p: Payload, row: seq<BackupValue>, was: Row)
    requires Reads(p, row, was) && sc.key == LowerSet(p.key) && sc.identity == LowerSet(p.identity)
    ensures FromRow(Assignments(e, p, row, Writable(p, 0)), was)
    ensures AssignedSet(Assignments(e, p, row, Writable(p, 0))) == WrittenBack(sc, p)
  {
    hide ToLower, LowerSet, Named, Assignments, Writable, CellAt;
    var positions := Writable(p, 0);
    var writes := Assignments(e, p, row, positions);
    WritableInRange(p, 0);
    forall i | 0 <= i < |writes|
      ensures ToLower(writes[i].column) in was && CellValue(writes[i].cell) == was[ToLower(writes[i].column)]
      ensures ToLower(writes[i].column) in WrittenBack(sc, p)
    {
      AssignmentMembers(e, p, row, positions, writes[i]);
      var k :| 0 <= k < |positions| && writes[i] in AssignmentAt(e, p, row, positions[k]);
      NamedInSet(p.key, p.columns[positions[k]]);
      NamedInSet(p.identity, p.columns[positions[k]]);
      StoredCell(e, p, row, positions[k]);
    }
    forall c | c in WrittenBack(sc, p) ensures c in AssignedSet(writes) {
      var i :| 0 <= i < |p.columns| && !Named(p.generated, p.columns[i]) && ToLower(p.columns[i]) == c;
      NamedInSet(p.key, p.columns[i]);
      NamedInSet(p.identity, p.columns[i]);
      var k :| 0 <= k < |positions| && positions[k] == i;
      var a := Assignment(p.columns[i], CellAt(e, p, row, i));
      AssignmentMembers(e, p, row, positions, a);
      assert a in AssignmentAt(e, p, row, positions[k]);
      var n :| 0 <= n < |writes| && writes[n] == a;
    }
  }

  lemma StoredCell(e: Engine, p: Payload, row: seq<BackupValue>, i: nat)
    requires i < |row|
    ensures CellValue(CellAt(e, p, row, i)) == row[i]
  {
  }

  // ------------------------------------------------------------------
  // All undo statements of an UPDATE, on any table.

  /** What the restore makes of a row: the old values of the backed-up row with its key, if there is one. */
  function Patch(sc: Schema, w: set<string>, selected: seq<Row>, r: Row): Row {
    if selected == [] then r
    else
      var last := selected[|selected| - 1];
      var before := Patch(sc, w, selected[..|selected| - 1], r);
      if KeyOf(sc, r) == KeyOf(sc, last) then PutBack(w, last, before) else before
  }

  function PatchAll(sc: Schema, w: set<string>, selected: seq<Row>, t: set<Row>): set<Row> {
    set r | r in t :: Patch(sc, w, selected, r)
  }

  ghost predicate HasKeyOf(sc: Schema, t: set<Row>, r: Row) {
    exists s :: s in t && KeyOf(sc, s) == KeyOf(sc, r)
  }

  lemma {:induction false} PatchKeepsKey(sc: Schema, w: set<string>, selected: seq<Row>, r: Row)
    requires w !! sc.key && Restore.Fits(sc, r)
    ensures KeyOf(sc, Patch(sc, w, selected, r)) == KeyOf(sc, r)
    ensures Patch(sc, w, selected, r).Keys == r.Keys
    ensures Restore.Fits(sc, Patch(sc, w, selected, r))
    decreases |selected|
  {
    if selected != [] {
      PatchKeepsKey(sc, w, selected[..|selected| - 1], r);
      var before, after := Patch(sc, w, selected[..|selected| - 1], r), Patch(sc, w, selected, r);
      assert forall c :: c in sc.key ==> KeyOf(sc, before)[c] == before[c];
      assert forall c :: c in sc.key ==> after[c] == before[c];
    }
  }

  /** One undo statement after the earlier ones. */
  lemma PatchStep(sc: Schema, e: Engine, p: Payload, row: seq<BackupValue>, was: Row, front: seq<Row>, t: set<Row>)
    requires Reads(p, row, was) && Restore.Fits(sc, was) && sc.key == LowerSet(p.key) && sc.identity == LowerSet(p.identity)
    requires sc.key <= Captured(p) <= sc.columns && ValidTable(sc, t)
    ensures var w := WrittenBack(sc, p);
            var a, c := Assignments(e, p, row, Writable(p, 0)), Conditions(e, p, row, Writable(p, 0));
            && UpdateRows(PatchAll(sc, w, front, t), a, c) == PatchAll(sc, w, front + [was], t)
            && ((exists r :: r in PatchAll(sc, w, front, t) && MeetsAll(r, c)) <==> HasKeyOf(sc, t, was))
  {
    hide Reads, Captured, LowerSet, Assignments, Conditions, Writable, MeetsAll, Assign, PutBack, KeyOf;
    var w := WrittenBack(sc, p);
    var a, c := Assignments(e, p, row, Writable(p, 0)), Conditions(e, p, row, Writable(p, 0));
    assert (front + [was])[..|front|] == front;
    AssignmentsAreWrittenBack(sc, e, p, row, was);
    forall r | r in t
      ensures var x := Patch(sc, w, front, r);
              && (MeetsAll(x, c) <==> KeyOf(sc, r) == KeyOf(sc, was))
              && (if MeetsAll(x, c) then Assign(x, a) else x) == Patch(sc, w, front + [was], r)
    {
      PatchKeepsKey(sc, w, front, r);
      var x := Patch(sc, w, front, r);
      ConditionsFindKey(sc, e, p, row, was, x);
      AssignPutsBack(a, was, x);
    }
    UpdateIsPatch(sc, w, front, was, t, a, c);
  }

  lemma UpdateIsPatch(sc: Schema, w: set<string>, front: seq<Row>, was: Row, t: set<Row>, a: seq<Assignment>, c: seq<Condition>)
    requires forall r :: r in t ==>
               var x := Patch(sc, w, front, r);
               && (MeetsAll(x, c) <==> KeyOf(sc, r) == KeyOf(sc, was))
               && (if MeetsAll(x, c) then Assign(x, a) else x) == Patch(sc, w, front + [was], r)
    ensures UpdateRows(PatchAll(sc, w, front, t), a, c) == PatchAll(sc, w, front + [was], t)
    ensures (exists r :: r in PatchAll(sc, w, front, t) && MeetsAll(r, c)) <==> HasKeyOf(sc, t, was)
  {
    hide MeetsAll, Assign, Patch, KeyOf;
    var before, after := PatchAll(sc, w, front, t), PatchAll(sc, w, front + [was], t);
    var updated := UpdateRows(before, a, c);
    forall y | y in updated ensures y in after {
      var x :| x in before && y == (if MeetsAll(x, c) then Assign(x, a) else x);
      var r :| r in t && x == Patch(sc, w, front, r);
      assert y == Patch(sc, w, front + [was], r);
    }
    forall y | y in after ensures y in updated {
      var r :| r in t && y == Patch(sc, w, front + [was], r);
      var x := Patch(sc, w, front, r);
      assert x in before;
    }
    if HasKeyOf(sc, t, was) {
      var r :| r in t && KeyOf(sc, r) == KeyOf(sc, was);
      assert Patch(sc, w, front, r) in before;
    }
  }

  ghost predicate AllPresent(sc: Schema, t: set<Row>, selected: seq<Row>) {
    forall i :: 0 <= i < |selected| ==> HasKeyOf(sc, t, selected[i])
  }

  predicate Willing(statements: seq<Statement>, refuses: Statement -> bool) {
    forall i :: 0 <= i < |statements| ==> !refuses(statements[i])
  }

  lemma HasConditions(sc: Schema, e: Engine, p: Payload, row: seq<BackupValue>, was: Row)
    requires Reads(p, row, was) && Restore.Fits(sc, was) && sc.key == LowerSet(p.key) && sc.key <= Captured(p) && sc.key != {}
    ensures Conditions(e, p, row, Writable(p, 0)) != []
  {
    hide ToLower, LowerSet, Named, Conditions, Writable, ConditionAt;
    var c :| c in sc.key;
    assert c in Captured(p);
    var i :| 0 <= i < |p.columns| && !Named(p.generated, p.columns[i]) && ToLower(p.columns[i]) == c;
    NamedInSet(p.key, p.columns[i]);
    WritableInRange(p, 0);
    var k :| 0 <= k < |Writable(p, 0)| && Writable(p, 0)[k] == i;
    KeyCondition(sc, e, p, row, was, was, i);
    ConditionMembers(e, p, row, Writable(p, 0), ConditionAt(e, p, row, i)[0]);
  }

  lemma HasAssignments(sc: Schema, e: Engine, p: Payload, row: seq<BackupValue>, was: Row)
    requires Reads(p, row, was) && sc.key == LowerSet(p.key) && sc.identity == LowerSet(p.identity)
    ensures Assignments(e, p, row, Writable(p, 0)) == [] <==> WrittenBack(sc, p) == {}
  {
    hide ToLower, LowerSet, Named, Assignments, Writable, Captured;
    AssignmentsAreWrittenBack(sc, e, p, row, was);
    var a := Assignments(e, p, row, Writable(p, 0));
    if a != [] {
      assert ToLower(a[0].column) in AssignedSet(a);
    }
  }

  /** Every backed-up row patched, provided each is still there under its key. */
  ghost function Patched(sc: Schema, w: set<string>, selected: seq<Row>, t: set<Row>): Outcome {
    if AllPresent(sc, t, selected) then Done(PatchAll(sc, w, selected, t)) else Aborted
  }

  /** Main result: what the undo of an UPDATE does to whatever table it finds, when the database refuses nothing. */
  lemma {:induction false} UpdateRestoreOnAnyTable(sc: Schema, e: Engine, p: Payload, refuses: Statement -> bool, selected: seq<Row>, t: set<Row>, n: nat)
    requires Captures(sc, p, selected) && ValidTable(sc, t) && n <= |selected| && sc.key != {}
    requires Willing(Updates(e, p, p.rows[..n]), refuses)
    ensures WrittenBack(sc, p) == {} ==> Updates(e, p, p.rows[..n]) == []
    ensures WrittenBack(sc, p) != {} ==>
              ExecuteAll(sc, refuses, t, Updates(e, p, p.rows[..n])) == Patched(sc, WrittenBack(sc, p), selected[..n], t)
    decreases n
  {
    hide KeyOf, Reads, Captured, LowerSet, Updates, ExecuteAll, Patched, WrittenBack, Willing, ValidTable, Restore.Fits;
    if n == 0 {
      NoStatements(sc, e, p, refuses, selected, t);
    } else {
      UpdatesGrow(e, p, refuses, n);
      UpdateRestoreOnAnyTable(sc, e, p, refuses, selected, t, n - 1);
      OneMoreRow(sc, e, p, refuses, selected, t, n);
    }
  }

  lemma NoStatements(sc: Schema, e: Engine, p: Payload, refuses: Statement -> bool, selected: seq<Row>, t: set<Row>)
    ensures Updates(e, p, p.rows[..0]) == []
    ensures ExecuteAll(sc, refuses, t, []) == Patched(sc, WrittenBack(sc, p), selected[..0], t)
  {
    hide WrittenBack, HasKeyOf;
    NothingToPatch(sc, WrittenBack(sc, p), t);
    assert selected[..0] == [];
  }

  lemma UpdatesGrow(e: Engine, p: Payload, refuses: Statement -> bool, n: nat)
    requires 0 < n <= |p.rows|
    ensures Updates(e, p, p.rows[..n]) == Updates(e, p, p.rows[..n - 1]) + RowUpdate(e, p, p.rows[n - 1])
    ensures Willing(Updates(e, p, p.rows[..n]), refuses) ==> Willing(Updates(e, p, p.rows[..n - 1]), refuses)
  {
    hide RowUpdate;
    assert p.rows[..n][..n - 1] == p.rows[..n - 1];
    var earlier, all := Updates(e, p, p.rows[..n - 1]), Updates(e, p, p.rows[..n]);
    assert forall i :: 0 <= i < |earlier| ==> all[i] == earlier[i];
  }

  lemma ExecuteLast(sc: Schema, refuses: Statement -> bool, t: set<Row>, earlier: seq<Statement>, s: Statement)
    ensures ExecuteAll(sc, refuses, t, earlier + [s])
         == match ExecuteAll(sc, refuses, t, earlier) case Aborted => Aborted case Done(rows) => Execute(sc, refuses, rows, s)
  {
    hide Execute;
    assert (earlier + [s])[..|earlier|] == earlier;
  }

  /** The step from the first n - 1 backed-up rows to n. */
  lemma OneMoreRow(sc: Schema, e: Engine, p: Payload, refuses: Statement -> bool, selected: seq<Row>, t: set<Row>, n: nat)
    requires Captures(sc, p, selected) && ValidTable(sc, t) && 0 < n <= |selected| && sc.key != {}
    requires Willing(Updates(e, p, p.rows[..n]), refuses)
    requires Updates(e, p, p.rows[..n]) == Updates(e, p, p.rows[..n - 1]) + RowUpdate(e, p, p.rows[n - 1])
    requires WrittenBack(sc, p) == {} ==> Updates(e, p, p.rows[..n - 1]) == []
    requires WrittenBack(sc, p) != {} ==>
               ExecuteAll(sc, refuses, t, Updates(e, p, p.rows[..n - 1])) == Patched(sc, WrittenBack(sc, p), selected[..n - 1], t)
    ensures WrittenBack(sc, p) == {} ==> Updates(e, p, p.rows[..n]) == []
    ensures WrittenBack(sc, p) != {} ==>
              ExecuteAll(sc, refuses, t, Updates(e, p, p.rows[..n])) == Patched(sc, WrittenBack(sc, p), selected[..n], t)
  {
    hide Reads, Captured, LowerSet, Assignments, Conditions, Writable, UpdateRows, MeetsAll, HasKeyOf, Updates, ExecuteAll, PatchAll, AllPresent, WrittenBack;
    var w := WrittenBack(sc, p);
    var front, was, row := selected[..n - 1], selected[n - 1], p.rows[n - 1];
    assert selected[..n] == front + [was];
    HasConditions(sc, e, p, row, was);
    HasAssignments(sc, e, p, row, was);
    if w != {} {
      PatchStep(sc, e, p, row, was, front, t);
      var earlier, s := Updates(e, p, p.rows[..n - 1]), UpdateRow(Assignments(e, p, row, Writable(p, 0)), Conditions(e, p, row, Writable(p, 0)));
      assert Updates(e, p, p.rows[..n]) == earlier + [s];
      assert (earlier + [s])[|earlier|] == s;
      ExecuteLast(sc, refuses, t, earlier, s);
      PresentStep(sc, t, front, was);
    }
  }

  lemma NothingToPatch(sc: Schema, w: set<string>, t: set<Row>)
    ensures PatchAll(sc, w, [], t) == t
  {
  }

  lemma PresentStep(sc: Schema, t: set<Row>, front: seq<Row>, was: Row)
    ensures AllPresent(sc, t, front + [was]) <==> AllPresent(sc, t, front) && HasKeyOf(sc, t, was)
  {
    hide HasKeyOf;
    var all := front + [was];
    if AllPresent(sc, t, all) {
      forall i | 0 <= i < |front| ensures HasKeyOf(sc, t, front[i]) {
        assert all[i] == front[i];
      }
      assert all[|front|] == was;
    }
  }

  ghost predicate DistinctKeys(sc: Schema, selected: seq<Row>) {
    forall i, j :: 0 <= i < j < |selected| ==> KeyOf(sc, selected[i]) != KeyOf(sc, selected[j])
  }

  /** A row is patched from the one backed-up row that has its key, and from no other. */
  lemma {:induction false} PatchByKey(sc: Schema, w: set<string>, selected: seq<Row>, r: Row, i: nat)
    requires DistinctKeys(sc, selected) && (i < |selected| ==> KeyOf(sc, r) == KeyOf(sc, selected[i]))
    requires i >= |selected| ==> forall j :: 0 <= j < |selected| ==> KeyOf(sc, r) != KeyOf(sc, selected[j])
    ensures Patch(sc, w, selected, r) == if i < |selected| then PutBack(w, selected[i], r) else r
    decreases |selected|
  {
    hide KeyOf, PutBack;
    if selected != [] {
      var front := selected[..|selected| - 1];
      if i < |front| {
        assert front[i] == selected[i];
        PatchByKey(sc, w, front, r, i);
      } else {
        PatchByKey(sc, w, front, r, |front|);
      }
    }
  }

  /** Restore frame: on any later table, each backed-up row gets its written columns back and keeps
      every other column as it is now; rows that were not backed up are left alone. */
  lemma RestoreKeepsLaterEdits(sc: Schema, e: Engine, p: Payload, refuses: Statement -> bool, selected: seq<Row>, t: set<Row>)
    requires Captures(sc, p, selected) && ValidTable(sc, t) && sc.key != {} && WrittenBack(sc, p) != {}
    requires Willing(Updates(e, p, p.rows), refuses) && AllPresent(sc, t, selected)
    ensures var outcome := ExecuteAll(sc, refuses, t, Updates(e, p, p.rows));
            && outcome.Done?
            && (forall r, i :: r in t && 0 <= i < |selected| && KeyOf(sc, r) == KeyOf(sc, selected[i])
                  ==> PutBack(WrittenBack(sc, p), selected[i], r) in outcome.rows)
            && (forall r :: r in t && (forall i :: 0 <= i < |selected| ==> KeyOf(sc, r) != KeyOf(sc, selected[i])) ==> r in outcome.rows)
            && |outcome.rows| == |t|
  {
    hide ExecuteAll, Updates, WrittenBack, KeyOf, PutBack, HasKeyOf;
    assert p.rows[..|selected|] == p.rows && selected[..|selected|] == selected;
    UpdateRestoreOnAnyTable(sc, e, p, refuses, selected, t, |selected|);
    var w := WrittenBack(sc, p);
    WrittenIsNotKey(sc, p);
    forall r, i | r in t && 0 <= i < |selected| && KeyOf(sc, r) == KeyOf(sc, selected[i])
      ensures PutBack(w, selected[i], r) in PatchAll(sc, w, selected, t)
    {
      PatchByKey(sc, w, selected, r, i);
    }
    forall r | r in t && (forall i :: 0 <= i < |selected| ==> KeyOf(sc, r) != KeyOf(sc, selected[i]))
      ensures r in PatchAll(sc, w, selected, t)
    {
      PatchByKey(sc, w, selected, r, |selected|);
    }
    PatchKeepsSize(sc, w, selected, t);
  }

  lemma WrittenIsNotKey(sc: Schema, p: Payload)
    ensures WrittenBack(sc, p) !! sc.key
  {
    hide Captured;
  }

  // ------------------------------------------------------------------
  // Keys and sizes.

  function Keys(sc: Schema, t: set<Row>): set<Row> {
    set r | r in t :: KeyOf(sc, r)
  }

  lemma {:induction false} AsManyKeysAsRows(sc: Schema, t: set<Row>)
    requires forall r, s :: r in t && s in t && KeyOf(sc, r) == KeyOf(sc, s) ==> r == s
    ensures |Keys(sc, t)| == |t|
    decreases t
  {
    hide KeyOf;
    if t != {} {
      var r :| r in t;
      AsManyKeysAsRows(sc, t - {r});
      assert Keys(sc, t) == Keys(sc, t - {r}) + {KeyOf(sc, r)};
    }
  }

  lemma {:induction false} SameSizeSubset<T>(a: set<T>, b: set<T>)
    requires a <= b && |a| == |b|
    ensures a == b
    decreases a
  {
    if a != {} {
      var x :| x in a;
      SameSizeSubset(a - {x}, b - {x});
    } else {
      assert b == {} || |b| > 0;
    }
  }

  lemma PatchKeepsSize(sc: Schema, w: set<string>, selected: seq<Row>, t: set<Row>)
    requires ValidTable(sc, t) && w !! sc.key
    ensures |PatchAll(sc, w, selected, t)| == |t|
    ensures ValidTable(sc, PatchAll(sc, w, selected, t))
  {
    hide KeyOf, Patch;
    var patched := PatchAll(sc, w, selected, t);
    forall r | r in t ensures KeyOf(sc, Patch(sc, w, selected, r)) == KeyOf(sc, r) && Restore.Fits(sc, Patch(sc, w, selected, r)) {
      PatchKeepsKey(sc, w, selected, r);
    }
    forall r, s | r in patched && s in patched && KeyOf(sc, r) == KeyOf(sc, s) ensures r == s {
      var x :| x in t && r == Patch(sc, w, selected, x);
      var y :| y in t && s == Patch(sc, w, selected, y);
    }
    assert Keys(sc, patched) == Keys(sc, t) by {
      forall k | k in Keys(sc, t) ensures k in Keys(sc, patched) {
        var r :| r in t && KeyOf(sc, r) == k;
        assert Patch(sc, w, selected, r) in patched;
      }
    }
    AsManyKeysAsRows(sc, t);
    AsManyKeysAsRows(sc, patched);
  }

  // ------------------------------------------------------------------
  // UPDATE: exact or nothing.

  /** An UPDATE replaced some of the selected rows, one for one, and left the others. */
  ghost predicate Updated(sc: Schema, before: set<Row>, selected: seq<Row>, after: set<Row>) {
    && ValidTable(sc, before) && ValidTable(sc, after) && |after| == |before|
    && (forall i :: 0 <= i < |selected| ==> selected[i] in before)
    && (forall r :: r in before && r !in selected ==> r in after)
  }

  /** Row by row under its key, the table still has the old value of every column the restore does not write. */
  ghost predicate UnwrittenAgree(sc: Schema, w: set<string>, selected: seq<Row>, after: set<Row>) {
    forall i, r :: 0 <= i < |selected| && r in after && KeyOf(sc, r) == KeyOf(sc, selected[i])
      ==> PutBack(w, selected[i], r) == selected[i]
  }

  /** If every backed-up key is still in the table, the table has no other keys than before. */
  lemma OldKeysFillTheTable(sc: Schema, before: set<Row>, selected: seq<Row>, after: set<Row>)
    requires Updated(sc, before, selected, after) && AllPresent(sc, after, selected)
    ensures Keys(sc, after) == Keys(sc, before)
  {
    hide KeyOf;
    forall k | k in Keys(sc, before) ensures k in Keys(sc, after) {
      var r :| r in before && KeyOf(sc, r) == k;
      if r in selected {
        var i :| 0 <= i < |selected| && selected[i] == r;
        assert HasKeyOf(sc, after, selected[i]);
      }
    }
    AsManyKeysAsRows(sc, before);
    AsManyKeysAsRows(sc, after);
    SameSizeSubset(Keys(sc, before), Keys(sc, after));
  }

  /** A patched row is the old row with its key, when the unwritten columns agree. */
  lemma PatchedRowIsOld(sc: Schema, w: set<string>, before: set<Row>, selected: seq<Row>, after: set<Row>, r: Row, orig: Row)
    requires Updated(sc, before, selected, after) && DistinctKeys(sc, selected) && UnwrittenAgree(sc, w, selected, after)
    requires r in after && orig in before && KeyOf(sc, r) == KeyOf(sc, orig)
    ensures Patch(sc, w, selected, r) == orig
  {
    hide KeyOf, PutBack, Patch;
    if orig in selected {
      var i :| 0 <= i < |selected| && selected[i] == orig;
      PatchByKey(sc, w, selected, r, i);
    } else {
      forall j | 0 <= j < |selected| ensures KeyOf(sc, r) != KeyOf(sc, selected[j]) {
        assert selected[j] in before && selected[j] != orig;
      }
      PatchByKey(sc, w, selected, r, |selected|);
      assert orig in after;
    }
  }

  lemma PatchAllIsOld(sc: Schema, w: set<string>, before: set<Row>, selected: seq<Row>, after: set<Row>)
    requires Updated(sc, before, selected, after) && DistinctKeys(sc, selected) && AllPresent(sc, after, selected)
    ensures PatchAll(sc, w, selected, after) == before <==> UnwrittenAgree(sc, w, selected, after)
  {
    hide KeyOf, PutBack, Patch;
    OldKeysFillTheTable(sc, before, selected, after);
    var patched := PatchAll(sc, w, selected, after);
    if UnwrittenAgree(sc, w, selected, after) {
      forall x | x in patched ensures x in before {
        var r :| r in after && x == Patch(sc, w, selected, r);
        assert KeyOf(sc, r) in Keys(sc, before);
        var orig :| orig in before && KeyOf(sc, orig) == KeyOf(sc, r);
        PatchedRowIsOld(sc, w, before, selected, after, r, orig);
      }
      forall orig | orig in before ensures orig in patched {
        assert KeyOf(sc, orig) in Keys(sc, after);
        var r :| r in after && KeyOf(sc, r) == KeyOf(sc, orig);
        PatchedRowIsOld(sc, w, before, selected, after, r, orig);
      }
    }
    if patched == before {
      ExactImpliesAgree(sc, w, before, selected, after);
    }
  }

  lemma ExactImpliesAgree(sc: Schema, w: set<string>, before: set<Row>, selected: seq<Row>, after: set<Row>)
    requires Updated(sc, before, selected, after) && DistinctKeys(sc, selected)
    requires PatchAll(sc, w, selected, after) == before
    ensures UnwrittenAgree(sc, w, selected, after)
  {
    hide Patch, PutBack, KeyOf;
    forall i, r | 0 <= i < |selected| && r in after && KeyOf(sc, r) == KeyOf(sc, selected[i])
      ensures PutBack(w, selected[i], r) == selected[i]
    {
      PatchByKey(sc, w, selected, r, i);
      assert Patch(sc, w, selected, r) in before && selected[i] in before;
      PutBackKeepsKey(sc, w, selected[i], r);
    }
  }

  lemma PutBackKeepsKey(sc: Schema, w: set<string>, was: Row, r: Row)
    requires Restore.Fits(sc, was) && Restore.Fits(sc, r) && KeyOf(sc, r) == KeyOf(sc, was)
    ensures KeyOf(sc, PutBack(w, was, r)) == KeyOf(sc, was)
  {
    forall c | c in sc.key ensures r[c] == was[c] {
      assert KeyOf(sc, r)[c] == KeyOf(sc, was)[c];
    }
  }

  /** Main result. Undoing an UPDATE right away aborts exactly when some old key is gone; otherwise the table
      is the original one exactly when, under each old key, the columns the restore does not write are unchanged. */
  lemma UpdateRestoreIsExact(sc: Schema, e: Engine, p: Payload, refuses: Statement -> bool, before: set<Row>, selected: seq<Row>, after: set<Row>)
    requires Captures(sc, p, selected) && Updated(sc, before, selected, after) && sc.key != {} && WrittenBack(sc, p) != {}
    requires Willing(Updates(e, p, p.rows), refuses)
    ensures var outcome := ExecuteAll(sc, refuses, after, Updates(e, p, p.rows));
            && (outcome.Done? <==> AllPresent(sc, after, selected))
            && (outcome.Done? ==> (outcome.rows == before <==> UnwrittenAgree(sc, WrittenBack(sc, p), selected, after)))
  {
    hide ExecuteAll, Updates, WrittenBack, UnwrittenAgree, PatchAll, Reads;
    assert p.rows[..|selected|] == p.rows && selected[..|selected|] == selected;
    UpdateRestoreOnAnyTable(sc, e, p, refuses, selected, after, |selected|);
    if AllPresent(sc, after, selected) {
      PatchAllIsOld(sc, WrittenBack(sc, p), before, selected, after);
    }
  }

  predicate AgreeOn(columns: set<string>, r: Row, was: Row) {
    forall c :: c in columns && c in r && c in was ==> r[c] == was[c]
  }

  /** Under every old key, the identity columns outside the key have their old values. */
  ghost predicate IdentityAgrees(sc: Schema, selected: seq<Row>, after: set<Row>) {
    forall i, r :: 0 <= i < |selected| && r in after && KeyOf(sc, r) == KeyOf(sc, selected[i])
      ==> AgreeOn(sc.identity - sc.key, r, selected[i])
  }

  /** Main result for a backup of whole rows, on a database with any reasons of its own to refuse: the restore aborts,
      or the table is the original one exactly when the identity columns outside the key agree under each old key. */
  lemma WholeRowRestoreExactly(sc: Schema, e: Engine, p: Payload, refuses: Statement -> bool, before: set<Row>, selected: seq<Row>, after: set<Row>)
    requires Captures(sc, p, selected) && Updated(sc, before, selected, after) && sc.key != {} && WrittenBack(sc, p) != {}
    requires Captured(p) == sc.columns
    ensures var outcome := ExecuteAll(sc, refuses, after, Updates(e, p, p.rows));
            outcome.Aborted? || (outcome == Done(before) <==> IdentityAgrees(sc, selected, after))
  {
    hide ExecuteAll, Updates, Reads, Captured, KeyOf, PutBack, IdentityAgrees, UnwrittenAgree;
    UpdateRestoreIsExact(sc, e, p, s => false, before, selected, after);
    RefusalOnlyAborts(sc, refuses, after, Updates(e, p, p.rows));
    WholeRowsAgree(sc, WrittenBack(sc, p), selected, after);
  }

  lemma WholeRowsAgree(sc: Schema, w: set<string>, selected: seq<Row>, after: set<Row>)
    requires w == sc.columns - sc.key - sc.identity && (forall r :: r in after ==> Restore.Fits(sc, r))
    requires forall i :: 0 <= i < |selected| ==> Restore.Fits(sc, selected[i])
    ensures UnwrittenAgree(sc, w, selected, after) <==> IdentityAgrees(sc, selected, after)
  {
    hide KeyOf, PutBack;
    if UnwrittenAgree(sc, w, selected, after) {
      forall i, r | 0 <= i < |selected| && r in after && KeyOf(sc, r) == KeyOf(sc, selected[i])
        ensures AgreeOn(sc.identity - sc.key, r, selected[i])
      {
        PutBackElsewhere(sc, w, selected[i], r);
      }
    }
    if IdentityAgrees(sc, selected, after) {
      forall i, r | 0 <= i < |selected| && r in after && KeyOf(sc, r) == KeyOf(sc, selected[i]) ensures PutBack(w, selected[i], r) == selected[i] {
        PutBackWhole(sc, w, selected[i], r);
      }
    }
  }

  lemma PutBackElsewhere(sc: Schema, w: set<string>, was: Row, r: Row)
    requires PutBack(w, was, r) == was && w !! sc.identity
    ensures AgreeOn(sc.identity - sc.key, r, was)
  {
    forall c | c in sc.identity - sc.key && c in r && c in was ensures r[c] == was[c] {
      assert PutBack(w, was, r)[c] == r[c];
    }
  }

  /** The whole row was read and no identity column lies outside the key: exact, or aborted with the table as it was. */
  lemma WholeRowRestoreIsExactOrNothing(sc: Schema, e: Engine, p: Payload, refuses: Statement -> bool, before: set<Row>, selected: seq<Row>, after: set<Row>)
    requires Captures(sc, p, selected) && Updated(sc, before, selected, after) && sc.key != {} && WrittenBack(sc, p) != {}
    requires Captured(p) == sc.columns && sc.identity <= sc.key
    ensures var outcome := ExecuteAll(sc, refuses, after, Updates(e, p, p.rows)); outcome.Aborted? || outcome == Done(before)
  {
    hide ExecuteAll, Updates, Reads, Captured, KeyOf, Updated;
    WholeRowRestoreExactly(sc, e, p, refuses, before, selected, after);
  }

  lemma PutBackWhole(sc: Schema, w: set<string>, was: Row, r: Row)
    requires Restore.Fits(sc, was) && Restore.Fits(sc, r) && KeyOf(sc, r) == KeyOf(sc, was) && w == sc.columns - sc.key - sc.identity
    requires AgreeOn(sc.identity - sc.key, r, was)
    ensures PutBack(w, was, r) == was
  {
    forall c | c in sc.columns ensures PutBack(w, was, r)[c] == was[c] {
      if c in sc.key {
        assert KeyOf(sc, r)[c] == KeyOf(sc, was)[c];
      }
    }
  }

  /** A statement that leaves keys alone and changes only columns the restore writes is undone exactly. */
  lemma KeyKeepingRestoreIsExact(sc: Schema, e: Engine, p: Payload, refuses: Statement -> bool, before: set<Row>, selected: seq<Row>, after: set<Row>, effect: Row -> Row)
    requires Captures(sc, p, selected) && Updated(sc, before, selected, after) && sc.key != {} && WrittenBack(sc, p) != {}
    requires Willing(Updates(e, p, p.rows), refuses)
    requires forall i :: 0 <= i < |selected| ==>
               && effect(selected[i]) in after
               && KeyOf(sc, effect(selected[i])) == KeyOf(sc, selected[i])
               && PutBack(WrittenBack(sc, p), selected[i], effect(selected[i])) == selected[i]
    ensures ExecuteAll(sc, refuses, after, Updates(e, p, p.rows)) == Done(before)
  {
    hide ExecuteAll, Updates, Reads, WrittenBack, PutBack, KeyOf;
    UpdateRestoreIsExact(sc, e, p, refuses, before, selected, after);
  }

  /** An identity column outside the key is not written back, so an UPDATE that moves keys between rows
      can be "restored" into a different table. */
  lemma MovedKeysLoseIdentity(sc: Schema, e: Engine, p: Payload, refuses: Statement -> bool, before: set<Row>, selected: seq<Row>, after: set<Row>,
                              i: nat, r: Row, c: string)
    requires Captures(sc, p, selected) && Updated(sc, before, selected, after) && sc.key != {} && WrittenBack(sc, p) != {}
    requires Willing(Updates(e, p, p.rows), refuses) && AllPresent(sc, after, selected)
    requires i < |selected| && r in after && KeyOf(sc, r) == KeyOf(sc, selected[i])
    requires c in sc.identity && c !in sc.key && r[c] != selected[i][c]
    ensures var outcome := ExecuteAll(sc, refuses, after, Updates(e, p, p.rows)); outcome.Done? && outcome.rows != before
  {
    hide ExecuteAll, Updates, Reads, KeyOf, Captured;
    UpdateRestoreIsExact(sc, e, p, refuses, before, selected, after);
    assert PutBack(WrittenBack(sc, p), selected[i], r)[c] == r[c];
  }

  function Value1(n: string): BackupValue {
    BackupValue(Num, n)
  }

  function Row3(k: string, i: string, v: string): Row {
    map["k" := Value1(k), "i" := Value1(i), "v" := Value1(v)]
  }

  const SWAP_SCHEMA := Schema({"k", "i", "v"}, {"k"}, {"i"})

  const SWAP_PAYLOAD := Payload(["k", "i", "v"], ["k"],
                               [[Value1("1"), Value1("7"), Value1("3")], [Value1("2"), Value1("8"), Value1("4")]], [], ["i"], false, [])

  const SWAP_ROWS := [Row3("1", "7", "3"), Row3("2", "8", "4")]

  lemma Row3Key(k: string, i: string, v: string)
    ensures KeyOf(SWAP_SCHEMA, Row3(k, i, v)) == map["k" := Value1(k)] && Restore.Fits(SWAP_SCHEMA, Row3(k, i, v))
  {
  }

  lemma SwapSets()
    ensures LowerSet(["k"]) == {"k"} && LowerSet(["i"]) == {"i"} && Captured(SWAP_PAYLOAD) == {"k", "i", "v"}
  {
    var columns := SWAP_PAYLOAD.columns;
    assert ToLower("k") == "k" && ToLower("i") == "i" && ToLower("v") == "v";
    assert ToLower(["k"][0]) in LowerSet(["k"]) && ToLower(["i"][0]) in LowerSet(["i"]);
    assert ToLower(columns[0]) in Captured(SWAP_PAYLOAD) && ToLower(columns[1]) in Captured(SWAP_PAYLOAD) && ToLower(columns[2]) in Captured(SWAP_PAYLOAD);
  }

  lemma SwapReads()
    ensures Reads(SWAP_PAYLOAD, SWAP_PAYLOAD.rows[0], SWAP_ROWS[0]) && Reads(SWAP_PAYLOAD, SWAP_PAYLOAD.rows[1], SWAP_ROWS[1])
  {
    assert ToLower("k") == "k" && ToLower("i") == "i" && ToLower("v") == "v";
  }

  lemma SwapCaptures()
    ensures Captures(SWAP_SCHEMA, SWAP_PAYLOAD, SWAP_ROWS)
  {
    hide KeyOf, Reads, ToLower;
    SwapSets();
    SwapReads();
    Row3Key("1", "7", "3");
    Row3Key("2", "8", "4");
    assert map["k" := Value1("1")]["k"] != map["k" := Value1("2")]["k"];
  }

  lemma TwoRowTable(a: Row, b: Row)
    requires Restore.Fits(SWAP_SCHEMA, a) && Restore.Fits(SWAP_SCHEMA, b) && KeyOf(SWAP_SCHEMA, a) != KeyOf(SWAP_SCHEMA, b)
    ensures ValidTable(SWAP_SCHEMA, {a, b}) && |{a, b}| == 2
  {
  }

  /** Such a table, statement and backup exist: keys 1 and 2 swapped on rows whose identity values are 7 and 8. */
  lemma SwappedKeysExample(e: Engine)
    ensures var after := {Row3("2", "7", "3"), Row3("1", "8", "4")};
            var before := {Row3("1", "7", "3"), Row3("2", "8", "4")};
            var outcome := ExecuteAll(SWAP_SCHEMA, s => false, after, Updates(e, SWAP_PAYLOAD, SWAP_PAYLOAD.rows));
            && Captures(SWAP_SCHEMA, SWAP_PAYLOAD, SWAP_ROWS) && Updated(SWAP_SCHEMA, before, SWAP_ROWS, after)
            && outcome.Done? && outcome.rows != before
  {
    hide ExecuteAll, Updates, Captured, KeyOf, Restore.Fits, ValidTable, Row3;
    SwapSets();
    SwapCaptures();
    Row3Key("1", "7", "3");
    Row3Key("2", "8", "4");
    Row3Key("2", "7", "3");
    Row3Key("1", "8", "4");
    assert map["k" := Value1("1")]["k"] != map["k" := Value1("2")]["k"];
    var one, two, x, y := Row3("1", "7", "3"), Row3("2", "8", "4"), Row3("2", "7", "3"), Row3("1", "8", "4");
    TwoRowTable(one, two);
    TwoRowTable(x, y);
    assert WrittenBack(SWAP_SCHEMA, SWAP_PAYLOAD) == {"v"};
    assert HasKeyOf(SWAP_SCHEMA, {x, y}, one) && HasKeyOf(SWAP_SCHEMA, {x, y}, two);
    assert y["i"] != SWAP_ROWS[0]["i"] by { IdentityDiffers(); }
    MovedKeysLoseIdentity(SWAP_SCHEMA, e, SWAP_PAYLOAD, s => false, {one, two}, SWAP_ROWS, {x, y}, 0, y, "i");
  }

  lemma IdentityDiffers()
    ensures "i" in Row3("1", "8", "4") && "i" in SWAP_ROWS[0] && Row3("1", "8", "4")["i"] != SWAP_ROWS[0]["i"]
  {
    assert "8"[0] != "7"[0];
  }

  // ------------------------------------------------------------------
  // Columns that differ in case alone.

  ghost predicate AssignsColumn(assignments: seq<Assignment>, column: string) {
    exists k :: 0 <= k < |assignments| && assignments[k].column == column
  }

  predicate PlainColumn(p: Payload, column: string) {
    !Named(p.generated, column) && !Named(p.key, column) && !Named(p.identity, column)
  }

  /** Whatever the columns are called: one is written back if and only if no generated, key or identity column
      has its name up to case. */
  lemma WrittenBackByName(e: Engine, p: Payload, row: seq<BackupValue>, i: nat)
    requires i < |p.columns|
    ensures AssignsColumn(Assignments(e, p, row, Writable(p, 0)), p.columns[i]) <==> PlainColumn(p, p.columns[i])
  {
    hide PlainColumn, Assignments;
    var positions, assignments := Writable(p, 0), Assignments(e, p, row, Writable(p, 0));
    if AssignsColumn(assignments, p.columns[i]) {
      var n :| 0 <= n < |assignments| && assignments[n].column == p.columns[i];
      AssignedIsPlain(e, p, row, assignments[n]);
    }
    if PlainColumn(p, p.columns[i]) {
      var a := PlainIsAssigned(e, p, row, i);
      var n :| 0 <= n < |assignments| && assignments[n] == a;
    }
  }

  lemma AssignedIsPlain(e: Engine, p: Payload, row: seq<BackupValue>, a: Assignment)
    requires a in Assignments(e, p, row, Writable(p, 0))
    ensures PlainColumn(p, a.column)
  {
    hide Named, CellAt, Writable, Assignments;
    WritableInRange(p, 0);
    AssignmentMembers(e, p, row, Writable(p, 0), a);
    var k :| 0 <= k < |Writable(p, 0)| && a in AssignmentAt(e, p, row, Writable(p, 0)[k]);
  }

  lemma PlainIsAssigned(e: Engine, p: Payload, row: seq<BackupValue>, i: nat) returns (a: Assignment)
    requires i < |p.columns| && PlainColumn(p, p.columns[i])
    ensures a in Assignments(e, p, row, Writable(p, 0)) && a.column == p.columns[i]
  {
    hide Named, CellAt, Writable, Assignments;
    WritableInRange(p, 0);
    a := Assignment(p.columns[i], CellAt(e, p, row, i));
    var k :| 0 <= k < |Writable(p, 0)| && Writable(p, 0)[k] == i;
    assert a in AssignmentAt(e, p, row, Writable(p, 0)[k]);
    AssignmentMembers(e, p, row, Writable(p, 0), a);
  }

  /** Such a table: the backup read column "A", and its plan does nothing, because a generated column is called "a". */
  lemma TwinIsNotWrittenBack(e: Engine, item: Item, k: BackupValue, v: BackupValue)
    requires item.kind == UpdateBackup
    ensures PlanOf(e, item, Payload(["k", "A"], ["k"], [[k, v]], ["a"], [], false, [])).statements == []
  {
    hide ToLower, Conditions, Named, CellAt;
    var p, row := Payload(["k", "A"], ["k"], [[k, v]], ["a"], [], false, []), [k, v];
    assert Named(p.key, "k") && Named(p.generated, "A") by { NamedByCase(); }
    assert Writable(p, 2) == [];
    assert Writable(p, 1) == [];
    assert [0][1..] == [] && Assignments(e, p, row, []) == [];
    assert Assignments(e, p, row, Writable(p, 0)) == [];
    assert [row][..0] == [] && Updates(e, p, []) == [];
  }

  lemma NamedByCase()
    ensures Named(["k"], "k") && Named(["a"], "A")
  {
    assert ToLower("A") == ['a'] && ToLower("a") == ['a'];
    assert ["k"][0] == "k" && ["a"][0] == "a";
  }
}
