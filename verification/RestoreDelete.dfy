/** Undoing a DELETE: the saved rows come back, all or none. */
module RestoreDelete {
  import opened Bytes
  import opened RowBackup
  import opened Restore
  import opened RestoreExact

  // ------------------------------------------------------------------
  // One written row is the row that was read.

  lemma LowerSetGrows(names: seq<string>)
    requires names != []
    ensures LowerSet(names) == LowerSet(names[..|names| - 1]) + {ToLower(names[|names| - 1])}
  {
    hide ToLower;
    var n := |names| - 1;
    forall i | 0 <= i < |names| ensures ToLower(names[i]) in LowerSet(names[..n]) + {ToLower(names[n])} {
      if i < n {
        assert names[..n][i] == names[i];
      }
    }
  }

  ghost predicate DistinctNames(names: seq<string>) {
    forall i, j :: 0 <= i < j < |names| ==> ToLower(names[i]) != ToLower(names[j])
  }

  lemma {:induction false} RowOfAt(names: seq<string>, cells: seq<Cell>)
    requires |names| == |cells| && DistinctNames(names)
    ensures RowOf(names, cells).Keys == LowerSet(names)
    ensures forall i :: 0 <= i < |names| ==> ToLower(names[i]) in RowOf(names, cells) && RowOf(names, cells)[ToLower(names[i])] == CellValue(cells[i])
    decreases |names|
  {
    hide ToLower, LowerSet;
    if names == [] {
      assert LowerSet([]) == {} by { NoLower(); }
    } else {
      var n := |names| - 1;
      LowerSetGrows(names);
      RowOfAt(names[..n], cells[..n]);
      forall i | 0 <= i < |names|
        ensures ToLower(names[i]) in RowOf(names, cells) && RowOf(names, cells)[ToLower(names[i])] == CellValue(cells[i])
      {
        if i < n {
          assert names[..n][i] == names[i];
        }
      }
    }
  }

  lemma NoLower()
    ensures LowerSet([]) == {}
  {
  }

  lemma {:induction false} NamesAndCells(e: Engine, p: Payload, row: seq<BackupValue>, positions: seq<nat>)
    requires forall k :: 0 <= k < |positions| ==> positions[k] < |p.columns|
    ensures forall k :: 0 <= k < |positions| ==> NamesAt(p, positions)[k] == p.columns[positions[k]]
    ensures forall k :: 0 <= k < |positions| ==> Cells(e, p, row, positions)[k] == CellAt(e, p, row, positions[k])
    decreases |positions|
  {
    hide CellAt;
    if positions != [] {
      NamesAndCells(e, p, row, positions[1..]);
      forall k | 0 <= k < |positions|
        ensures NamesAt(p, positions)[k] == p.columns[positions[k]] && Cells(e, p, row, positions)[k] == CellAt(e, p, row, positions[k])
      {
        if k > 0 {
          assert positions[1..][k - 1] == positions[k];
        }
      }
    }
  }

  /** The row an undo INSERT writes for a backed-up row is that row. */
  lemma WrittenRowIsSavedRow(sc: Schema, e: Engine, p: Payload, row: seq<BackupValue>, was: Row)
    requires Reads(p, row, was) && Restore.Fits(sc, was) && Captured(p) == sc.columns && DistinctNames(p.columns)
    ensures RowOf(NamesAt(p, Writable(p, 0)), Cells(e, p, row, Writable(p, 0))) == was
  {
    hide ToLower, Named, CellAt, Writable, NamesAt, Cells, RowOf, LowerSet, Captured;
    var positions := Writable(p, 0);
    WritableInRange(p, 0);
    NamesAndCells(e, p, row, positions);
    var names, cells := NamesAt(p, positions), Cells(e, p, row, positions);
    forall i, j | 0 <= i < j < |names| ensures ToLower(names[i]) != ToLower(names[j]) {
      assert positions[i] < positions[j];
    }
    RowOfAt(names, cells);
    NamesAreCaptured(p, positions, names);
    var r := RowOf(names, cells);
    forall k | 0 <= k < |names| ensures ToLower(names[k]) in was && r[ToLower(names[k])] == was[ToLower(names[k])] {
      StoredCell(e, p, row, positions[k]);
    }
    forall c | c in r ensures c in was && r[c] == was[c] {
      LowerOrigin(names, c);
    }
  }

  lemma LowerOrigin(names: seq<string>, c: string)
    requires c in LowerSet(names)
    ensures exists k :: 0 <= k < |names| && ToLower(names[k]) == c
  {
    hide ToLower;
  }

  /** The writable columns are the captured ones. */
  lemma NamesAreCaptured(p: Payload, positions: seq<nat>, names: seq<string>)
    requires positions == Writable(p, 0) && |names| == |positions|
    requires forall k :: 0 <= k < |positions| ==> positions[k] < |p.columns| && names[k] == p.columns[positions[k]]
    ensures LowerSet(names) == Captured(p)
  {
    hide ToLower, Named, Writable;
    WritableInRange(p, 0);
    forall c | c in Captured(p) ensures c in LowerSet(names) {
      var i :| 0 <= i < |p.columns| && !Named(p.generated, p.columns[i]) && ToLower(p.columns[i]) == c;
      var k :| 0 <= k < |positions| && positions[k] == i;
      assert ToLower(names[k]) == c;
    }
    forall c | c in LowerSet(names) ensures c in Captured(p) {
      var k :| 0 <= k < |names| && ToLower(names[k]) == c;
      assert ToLower(p.columns[positions[k]]) == c;
    }
  }

  // ------------------------------------------------------------------
  // Inserting many.

  ghost predicate NonePresent(sc: Schema, t: set<Row>, selected: seq<Row>) {
    forall i :: 0 <= i < |selected| ==> !HasKeyOf(sc, t, selected[i])
  }

  function RowSet(rows: seq<Row>): set<Row> {
    set i | 0 <= i < |rows| :: rows[i]
  }

  /** All saved rows added, provided none of their keys is taken. */
  ghost function Added(sc: Schema, t: set<Row>, selected: seq<Row>): Outcome {
    if NonePresent(sc, t, selected) then Done(t + RowSet(selected)) else Aborted
  }

  lemma AddOne(sc: Schema, t: set<Row>, first: Row, rest: seq<Row>)
    requires DistinctKeys(sc, [first] + rest)
    ensures Added(sc, t, [first] + rest) == if HasKeyOf(sc, t, first) then Aborted else Added(sc, t + {first}, rest)
    ensures DistinctKeys(sc, rest)
  {
    hide KeyOf;
    var all := [first] + rest;
    assert all[0] == first && forall i :: 0 <= i < |rest| ==> rest[i] == all[i + 1];
    if !HasKeyOf(sc, t, first) {
      assert NonePresent(sc, t, all) <==> NonePresent(sc, t + {first}, rest) by {
        if NonePresent(sc, t + {first}, rest) {
          forall i | 0 <= i < |all| ensures !HasKeyOf(sc, t, all[i]) {
            assert i > 0 ==> !HasKeyOf(sc, t + {first}, rest[i - 1]);
          }
        }
      }
      assert t + RowSet(all) == t + {first} + RowSet(rest);
    }
  }

  lemma {:induction false} InsertAddsAll(sc: Schema, e: Engine, p: Payload, rows: seq<seq<BackupValue>>, selected: seq<Row>, t: set<Row>)
    requires |rows| == |selected| && DistinctKeys(sc, selected) && Captured(p) == sc.columns && DistinctNames(p.columns)
    requires forall i :: 0 <= i < |rows| ==> Reads(p, rows[i], selected[i]) && Restore.Fits(sc, selected[i])
    ensures InsertAll(sc, t, NamesAt(p, Writable(p, 0)), RowCells(e, p, rows)) == Added(sc, t, selected)
    decreases |rows|
  {
    hide ToLower, Reads, Captured, KeyOf, Writable, NamesAt, Cells, RowOf, Restore.Fits, NonePresent, RowSet;
    if rows == [] {
      AddNone(sc, t);
      assert selected == [];
    } else {
      WrittenRowIsSavedRow(sc, e, p, rows[0], selected[0]);
      assert selected == [selected[0]] + selected[1..];
      AddOne(sc, t, selected[0], selected[1..]);
      InsertAddsAll(sc, e, p, rows[1..], selected[1..], t + {selected[0]});
    }
  }

  lemma AddNone(sc: Schema, t: set<Row>)
    ensures Added(sc, t, []) == Done(t)
  {
    assert t + RowSet([]) == t;
  }

  lemma AddTwice(sc: Schema, t: set<Row>, a: seq<Row>, b: seq<Row>)
    requires DistinctKeys(sc, a + b)
    ensures DistinctKeys(sc, a) && DistinctKeys(sc, b)
    ensures Added(sc, t, a + b) == match Added(sc, t, a) case Aborted => Aborted case Done(rows) => Added(sc, rows, b)
    decreases |a|
  {
    hide KeyOf, HasKeyOf, NonePresent;
    if a == [] {
      assert a + b == b;
      AddNone(sc, t);
      assert DistinctKeys(sc, []);
    } else {
      assert a + b == [a[0]] + (a[1..] + b);
      assert a == [a[0]] + a[1..];
      AddOne(sc, t, a[0], a[1..] + b);
      AddTwice(sc, t + {a[0]}, a[1..], b);
      assert DistinctKeys(sc, a) by { PrefixDistinct(sc, a, b); }
      AddOne(sc, t, a[0], a[1..]);
    }
  }

  lemma PrefixDistinct(sc: Schema, a: seq<Row>, b: seq<Row>)
    requires DistinctKeys(sc, a + b)
    ensures DistinctKeys(sc, a)
  {
    hide KeyOf;
    assert forall i :: 0 <= i < |a| ==> a[i] == (a + b)[i];
  }

  lemma {:induction false} ExecuteFirst(sc: Schema, refuses: Statement -> bool, t: set<Row>, s: Statement, rest: seq<Statement>)
    ensures ExecuteAll(sc, refuses, t, [s] + rest)
         == match Execute(sc, refuses, t, s) case Aborted => Aborted case Done(rows) => ExecuteAll(sc, refuses, rows, rest)
    decreases |rest|
  {
    hide Execute;
    if rest == [] {
      assert [s] + rest == [s] && [s][..0] == [];
    } else {
      var front := rest[..|rest| - 1];
      assert ([s] + rest)[..|rest|] == [s] + front;
      ExecuteFirst(sc, refuses, t, s, front);
    }
  }

  /** The hundred-row statements together add what one statement would. */
  lemma {:induction false} ChunksAddAll(sc: Schema, e: Engine, p: Payload, refuses: Statement -> bool, selected: seq<Row>, t: set<Row>, overriding: bool, start: nat)
    requires Captures(sc, p, selected) && Captured(p) == sc.columns && start <= |selected|
    requires Willing(Inserts(e, p, overriding, start), refuses)
    ensures ExecuteAll(sc, refuses, t, Inserts(e, p, overriding, start)) == Added(sc, t, selected[start..])
    decreases |selected| - start
  {
    hide ToLower, Reads, Captured, KeyOf, LowerSet, Writable, NamesAt, RowCells, NonePresent, InsertAll, ExecuteAll, Restore.Fits;
    InsertsFrom(e, p, overriding, start);
    if start == |selected| {
      assert selected[start..] == [];
      AddNone(sc, t);
      NothingToExecute(sc, refuses, t);
    } else {
      var end := ChunkEnd(p, start);
      var first, rest := Chunk(e, p, overriding, start), Inserts(e, p, overriding, start + ROWS_PER_INSERT);
      assert ([first] + rest)[0] == first && forall i :: 0 <= i < |rest| ==> ([first] + rest)[i + 1] == rest[i];
      ExecuteFirst(sc, refuses, t, first, rest);
      InsertAddsAll(sc, e, p, p.rows[start..end], selected[start..end], t);
      assert selected[start..] == selected[start..end] + selected[end..];
      AddTwice(sc, t, selected[start..end], selected[end..]);
      if Added(sc, t, selected[start..end]).Done? {
        var more := Added(sc, t, selected[start..end]).rows;
        if end == start + ROWS_PER_INSERT {
          ChunksAddAll(sc, e, p, refuses, selected, more, overriding, end);
        } else {
          InsertsFrom(e, p, overriding, start + ROWS_PER_INSERT);
          assert selected[end..] == [];
          AddNone(sc, more);
          NothingToExecute(sc, refuses, more);
        }
      }
    }
  }

  lemma NothingToExecute(sc: Schema, refuses: Statement -> bool, t: set<Row>)
    ensures ExecuteAll(sc, refuses, t, []) == Done(t)
  {
  }

  // ------------------------------------------------------------------
  // DELETE: all of it or none of it.

  /** A DELETE took `gone` away, some of the rows its WHERE selected. */
  ghost predicate Deleted(sc: Schema, before: set<Row>, selected: seq<Row>, gone: set<Row>, after: set<Row>) {
    && ValidTable(sc, before) && after == before - gone
    && (forall i :: 0 <= i < |selected| ==> selected[i] in before)
    && gone <= RowSet(selected)
  }

  lemma AddedBack(sc: Schema, p: Payload, before: set<Row>, selected: seq<Row>, gone: set<Row>, after: set<Row>)
    requires Captures(sc, p, selected) && Deleted(sc, before, selected, gone, after)
    ensures Added(sc, after, selected) == if gone == RowSet(selected) then Done(before) else Aborted
  {
    hide ToLower, Reads, Captured, KeyOf, LowerSet;
    if gone == RowSet(selected) {
      forall i | 0 <= i < |selected| ensures !HasKeyOf(sc, after, selected[i]) {
        assert selected[i] in RowSet(selected);
      }
      assert after + RowSet(selected) == before;
    } else {
      var r :| r in RowSet(selected) && r !in gone;
      var i :| 0 <= i < |selected| && selected[i] == r;
      OwnKey(sc, after, selected[i]);
      assert !NonePresent(sc, after, selected);
    }
  }

  lemma OwnKey(sc: Schema, t: set<Row>, r: Row)
    requires r in t
    ensures HasKeyOf(sc, t, r)
  {
    assert KeyOf(sc, r) == KeyOf(sc, r);
  }

  /** Main result: undoing a DELETE right away restores the table when every selected row was deleted,
      and otherwise aborts, because a row that stayed still has its key. A database that refuses aborts, or does the same. */
  lemma DeleteRestoreIsExact(sc: Schema, e: Engine, item: Item, p: Payload, refuses: Statement -> bool, before: set<Row>, selected: seq<Row>, gone: set<Row>, after: set<Row>)
    requires Captures(sc, p, selected) && Captured(p) == sc.columns && Deleted(sc, before, selected, gone, after)
    requires item.kind == DeleteBackup
    ensures var outcome := ExecuteAll(sc, refuses, after, PlanOf(e, item, p).statements);
            && (outcome.Aborted? || (gone == RowSet(selected) && outcome == Done(before)))
            && (Willing(PlanOf(e, item, p).statements, refuses) && gone == RowSet(selected) ==> outcome == Done(before))
  {
    hide Captures, Captured, Deleted, Writable, Inserts, UsesIdentity, ExecuteAll, Added, RowSet;
    var overriding := UsesIdentity(p, Writable(p, 0)) && p.identityAlways && e == PostgresEngine;
    assert selected[0..] == selected;
    AddedBack(sc, p, before, selected, gone, after);
    ChunksAddAll(sc, e, p, s => false, selected, after, overriding, 0);
    RefusalOnlyAborts(sc, refuses, after, Inserts(e, p, overriding, 0));
    if Willing(Inserts(e, p, overriding, 0), refuses) {
      ChunksAddAll(sc, e, p, refuses, selected, after, overriding, 0);
    }
  }
}
