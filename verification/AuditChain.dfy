/** The per-organisation audit hash chain: how entries are appended in batches,
    how the chain is verified, and what tampering the verification finds. */
module AuditChain {
  import opened Prelude

  /** SHA-256 of the previous entry's hash joined to this entry's text. A hash holds no '|', so the
      joined preimage determines both; the hash is taken to be injective. Root stands for "". */
  datatype Hash = Root | Of(previous: Hash, text: string)

  /** The columns the hash covers, and one for all it does not. */
  datatype Entry = Entry(
    id: string, user: string, org: string, connection: string, queryHash: string, startedAt: string, decision: string,
    reference: string, sql: string, error: string, ip: string, returned: Option<int>, affected: Option<int>, uncovered: string)

  datatype Row = Row(entry: Entry, previous: Hash, hash: Hash, version: nat)

  datatype Break = Break(org: string, id: string)

  const CURRENT_VERSION := 2

  // ------------------------------------------------------------------
  // What is hashed.

  function Digits(n: nat): string {
    (if n < 10 then "" else Digits(n / 10)) + [(n % 10) as char + '0']
  }

  function OptionalNumber(n: Option<int>): string {
    match n
    case None => ""
    case Some(k) => if k < 0 then "-" + Digits(-k) else Digits(k)
  }

  function JoinBars(values: seq<string>): string {
    if values == [] then "" else if |values| == 1 then values[0] else values[0] + "|" + JoinBars(values[1..])
  }

  function Values(version: nat, e: Entry): seq<string> {
    [e.id, e.user, e.org, e.connection, e.queryHash, e.startedAt, e.decision, e.reference]
    + if version == 2 then [e.sql, e.error, e.ip, OptionalNumber(e.returned), OptionalNumber(e.affected)] else []
  }

  function HashedText(version: nat, e: Entry): string {
    JoinBars(Values(version, e))
  }

  function AuditHash(version: nat, previous: Hash, e: Entry): Hash {
    Of(previous, HashedText(version, e))
  }

  function Prepare(previous: Hash, e: Entry): Row {
    Row(e, previous, AuditHash(CURRENT_VERSION, previous, e), CURRENT_VERSION)
  }

  // ------------------------------------------------------------------
  // Appending.

  /** One organisation's rows, in the order they were written. */
  function OfOrg(rows: seq<Row>, org: string): seq<Row> {
    if rows == [] then []
    else OfOrg(rows[..|rows| - 1], org) + (if rows[|rows| - 1].entry.org == org then [rows[|rows| - 1]] else [])
  }

  function Head(chain: seq<Row>): Hash {
    if chain == [] then Root else chain[|chain| - 1].hash
  }

  /** One entry at a time: chained to its organisation's last row; entries without one start from Root. */
  function Append(log: seq<Row>, e: Entry): seq<Row> {
    log + [Prepare(if e.org == "" then Root else Head(OfOrg(log, e.org)), e)]
  }

  function AppendAll(log: seq<Row>, audits: seq<Entry>): seq<Row> {
    if audits == [] then log else Append(AppendAll(log, audits[..|audits| - 1]), audits[|audits| - 1])
  }

  lemma OfOrgLast(rows: seq<Row>, r: Row, org: string)
    ensures OfOrg(rows + [r], org) == OfOrg(rows, org) + (if r.entry.org == org then [r] else [])
  {
    assert (rows + [r])[..|rows|] == rows;
  }

  lemma AppendNothing(log: seq<Row>)
    ensures AppendAll(log, []) == log
  {
  }

  lemma AppendLast(log: seq<Row>, audits: seq<Entry>, e: Entry)
    ensures AppendAll(log, audits + [e]) == Append(AppendAll(log, audits), e)
  {
    assert (audits + [e])[..|audits|] == audits;
  }

  /** Each head carried in memory is its organisation's last hash. */
  ghost predicate Current(heads: map<string, Hash>, rows: seq<Row>) {
    forall org :: org in heads ==> org != "" && heads[org] == Head(OfOrg(rows, org))
  }

  lemma StaysCurrent(heads: map<string, Hash>, rows: seq<Row>, r: Row)
    requires Current(heads, rows)
    ensures Current(if r.entry.org != "" then heads[r.entry.org := r.hash] else heads, rows + [r])
  {
    hide OfOrg;
    forall org ensures OfOrg(rows + [r], org) == OfOrg(rows, org) + (if r.entry.org == org then [r] else []) {
      OfOrgLast(rows, r, org);
    }
  }

  /** What a batched write can run into. */
  datatype Fault = NoFault | BeginFails | InsertFails(at: nat) | HistoryFails(at: nat) | CommitFails

  class Log<History> {
    var rows: seq<Row>
    var history: seq<History>

    constructor ()
      ensures rows == [] && history == []
    {
      rows, history := [], [];
    }

    /** The batch as the program writes it: each chain head is looked up once and carried in a map. */
    method WriteActivity(audits: seq<Entry>, histories: seq<History>, fault: Fault) returns (stored: bool)
      modifies this
      ensures stored ==> rows == AppendAll(old(rows), audits) && history == old(history) + histories
      ensures !stored ==> rows == old(rows) && history == old(history)
      ensures fault == NoFault ==> stored
    {
      hide OfOrg, AuditHash, AppendAll;
      AppendNothing(rows);
      if |audits| == 0 && |histories| == 0 {
        assert history + histories == history;
        return true;
      }
      if fault == BeginFails {
        return false;
      }
      var heads: map<string, Hash> := map[];
      var inserted := rows;
      assert audits[..0] == [];
      for i := 0 to |audits|
        invariant inserted == AppendAll(old(rows), audits[..i])
        invariant Current(heads, inserted)
        invariant unchanged(this)
      {
        var item := audits[i];
        var previous := Root;
        if item.org != "" {
          previous := if item.org in heads then heads[item.org] else Head(OfOrg(inserted, item.org));
        }
        var row := Prepare(previous, item);
        StaysCurrent(heads, inserted, row);
        if item.org != "" {
          heads := heads[item.org := row.hash];
        }
        if fault == InsertFails(i) {
          return false;
        }
        assert audits[..i + 1] == audits[..i] + [item];
        AppendLast(old(rows), audits[..i], item);
        inserted := inserted + [row];
      }
      assert audits[..|audits|] == audits;
      if fault.HistoryFails? || fault == CommitFails {
        return false;
      }
      rows, history := inserted, history + histories;
      stored := true;
    }
  }

  // ------------------------------------------------------------------
  // Batching does not show.

  lemma {:induction false} AppendInTwo(log: seq<Row>, a: seq<Entry>, b: seq<Entry>)
    ensures AppendAll(AppendAll(log, a), b) == AppendAll(log, a + b)
    decreases |b|
  {
    if b == [] {
      assert a + b == a;
    } else {
      var front := b[..|b| - 1];
      AppendInTwo(log, a, front);
      assert (a + b)[..|a + b| - 1] == a + front;
    }
  }

  function Flatten(batches: seq<seq<Entry>>): seq<Entry> {
    if batches == [] then [] else Flatten(batches[..|batches| - 1]) + batches[|batches| - 1]
  }

  function WriteBatches(log: seq<Row>, batches: seq<seq<Entry>>): seq<Row> {
    if batches == [] then log else AppendAll(WriteBatches(log, batches[..|batches| - 1]), batches[|batches| - 1])
  }

  /** Main result: the log depends on the entries and their order, never on how they were grouped. */
  lemma {:induction false} GroupingDoesNotShow(log: seq<Row>, batches: seq<seq<Entry>>)
    ensures WriteBatches(log, batches) == AppendAll(log, Flatten(batches))
    decreases |batches|
  {
    if batches != [] {
      var front := batches[..|batches| - 1];
      GroupingDoesNotShow(log, front);
      AppendInTwo(log, Flatten(front), batches[|batches| - 1]);
    }
  }

  // ------------------------------------------------------------------
  // Verifying.

  predicate Verifies(r: Row, previous: Hash) {
    && r.previous == previous
    && (r.version == 1 || r.version == CURRENT_VERSION)
    && r.hash == AuditHash(r.version, r.previous, r.entry)
  }

  /** Index of the first row of a chain that does not verify, or its length. */
  function FirstBad(chain: seq<Row>): (k: nat)
    ensures k <= |chain|
  {
    if chain == [] then 0
    else
      var front, last := chain[..|chain| - 1], chain[|chain| - 1];
      if FirstBad(front) < |front| then FirstBad(front)
      else if Verifies(last, Head(front)) then |chain|
      else |front|
  }

  predicate Intact(chain: seq<Row>) {
    FirstBad(chain) == |chain|
  }

  /** What a verification run must report: every organisation whose chain fails, once, at its first failing row. */
  ghost predicate Reports(breaks: seq<Break>, scan: seq<Row>) {
    && (forall b :: b in breaks ==> Accurate(b, OfOrg(scan, b.org)))
    && (forall org :: !Intact(OfOrg(scan, org)) ==> exists i :: 0 <= i < |breaks| && breaks[i].org == org)
    && (forall i, j :: 0 <= i < j < |breaks| ==> breaks[i].org != breaks[j].org)
  }

  lemma FirstBadLast(chain: seq<Row>, r: Row)
    ensures FirstBad(chain + [r]) == if !Intact(chain) then FirstBad(chain) else if Verifies(r, Head(chain)) then |chain| + 1 else |chain|
  {
    assert (chain + [r])[..|chain|] == chain;
  }

  method VerifyAuditChain(scan: seq<Row>) returns (breaks: seq<Break>, checked: nat)
    ensures checked == |scan|
    ensures Reports(breaks, scan)
  {
    hide Verifies, FirstBad, OfOrg, Reports;
    breaks, checked := [], 0;
    var broken: set<string> := {};
    var previous: map<string, Hash> := map[];
    NothingToReport();
    assert scan[..0] == [];
    for i := 0 to |scan|
      invariant checked == i
      invariant Reports(breaks, scan[..i])
      invariant forall org :: org in broken <==> !Intact(OfOrg(scan[..i], org))
      invariant forall org :: org !in broken ==> (if org in previous then previous[org] else Root) == Head(OfOrg(scan[..i], org))
    {
      var item := scan[i];
      var org := item.entry.org;
      checked := checked + 1;
      assert scan[..i + 1] == scan[..i] + [item];
      OneMoreRow(scan[..i], item);
      OneMore(breaks, scan[..i], item, scan[..i + 1]);
      if org in broken {
        continue;
      }
      var expected := if org in previous then previous[org] else Root;
      if !Verifies(item, expected) {
        broken := broken + {org};
        breaks := breaks + [Break(org, item.entry.id)];
        continue;
      }
      HeadLast(OfOrg(scan[..i], org), item);
      previous := previous[org := item.hash];
    }
    assert scan[..|scan|] == scan;
  }

  lemma HeadLast(chain: seq<Row>, r: Row)
    ensures Head(chain + [r]) == r.hash
  {
  }

  lemma NothingToReport()
    ensures Reports([], []) && forall org :: OfOrg([], org) == [] && Intact(OfOrg([], org))
  {
  }

  /** One more scanned row lengthens its organisation's chain and no other. */
  ghost predicate Extends(rows: seq<Row>, r: Row, more: seq<Row>) {
    && (forall org :: org != r.entry.org ==> OfOrg(more, org) == OfOrg(rows, org))
    && OfOrg(more, r.entry.org) == OfOrg(rows, r.entry.org) + [r]
  }

  lemma OneMoreRow(rows: seq<Row>, r: Row)
    ensures Extends(rows, r, rows + [r])
  {
    hide OfOrg;
    forall org | org != r.entry.org ensures OfOrg(rows + [r], org) == OfOrg(rows, org) {
      OfOrgLast(rows, r, org);
      assert OfOrg(rows, org) + [] == OfOrg(rows, org);
    }
    OfOrgLast(rows, r, r.entry.org);
  }

  lemma OneMore(breaks: seq<Break>, rows: seq<Row>, r: Row, more: seq<Row>)
    requires Reports(breaks, rows) && Extends(rows, r, more)
    ensures var chain := OfOrg(rows, r.entry.org);
            if Intact(chain) && !Verifies(r, Head(chain)) then
              Reports(breaks + [Break(r.entry.org, r.entry.id)], more) && !Intact(OfOrg(more, r.entry.org))
            else
              Reports(breaks, more) && (Intact(OfOrg(more, r.entry.org)) <==> Intact(chain))
  {
    hide FirstBad, Verifies, OfOrg, Reports, Head;
    var chain := OfOrg(rows, r.entry.org);
    FirstBadLast(chain, r);
    if Intact(chain) && !Verifies(r, Head(chain)) {
      ReportMore(breaks, rows, r, more);
    } else {
      ReportSame(breaks, rows, r, more);
    }
  }

  /** The break an organisation is reported with. */
  predicate Accurate(b: Break, chain: seq<Row>) {
    FirstBad(chain) < |chain| && b.id == chain[FirstBad(chain)].entry.id
  }

  lemma ReportSame(breaks: seq<Break>, rows: seq<Row>, r: Row, more: seq<Row>)
    requires Reports(breaks, rows) && Extends(rows, r, more)
    requires !Intact(OfOrg(rows, r.entry.org)) || Verifies(r, Head(OfOrg(rows, r.entry.org)))
    ensures Reports(breaks, more)
  {
    hide FirstBad, Verifies, OfOrg, Head;
    FirstBadLast(OfOrg(rows, r.entry.org), r);
    forall b | b in breaks ensures Accurate(b, OfOrg(more, b.org)) {
      assert Accurate(b, OfOrg(rows, b.org));
    }
    forall org | !Intact(OfOrg(more, org)) ensures exists i :: 0 <= i < |breaks| && breaks[i].org == org {
      assert !Intact(OfOrg(rows, org));
    }
  }

  lemma ReportMore(breaks: seq<Break>, rows: seq<Row>, r: Row, more: seq<Row>)
    requires Reports(breaks, rows) && Extends(rows, r, more)
    requires Intact(OfOrg(rows, r.entry.org)) && !Verifies(r, Head(OfOrg(rows, r.entry.org)))
    ensures Reports(breaks + [Break(r.entry.org, r.entry.id)], more)
  {
    hide FirstBad, Verifies, OfOrg, Head;
    var last := Break(r.entry.org, r.entry.id);
    var all := breaks + [last];
    FirstBadLast(OfOrg(rows, r.entry.org), r);
    forall b | b in breaks ensures b.org != r.entry.org && Accurate(b, OfOrg(more, b.org)) {
      assert Accurate(b, OfOrg(rows, b.org));
    }
    forall b | b in all ensures Accurate(b, OfOrg(more, b.org)) {
      assert b in breaks || b == last;
    }
    forall org | !Intact(OfOrg(more, org)) ensures exists i :: 0 <= i < |all| && all[i].org == org {
      if org == r.entry.org {
        assert all[|breaks|].org == org;
      } else {
        var i :| 0 <= i < |breaks| && breaks[i].org == org;
        assert all[i].org == org;
      }
    }
    forall i, j | 0 <= i < j < |all| ensures all[i].org != all[j].org {
      assert all[i] == breaks[i] && breaks[i] in breaks;
    }
  }

  // ------------------------------------------------------------------
  // What was written verifies.

  lemma {:induction false} WrittenChainsAreIntact(audits: seq<Entry>, org: string)
    requires org != ""
    ensures Intact(OfOrg(AppendAll([], audits), org))
    decreases |audits|
  {
    if audits != [] {
      var front, e := audits[..|audits| - 1], audits[|audits| - 1];
      var log := AppendAll([], front);
      WrittenChainsAreIntact(front, org);
      var row := Prepare(if e.org == "" then Root else Head(OfOrg(log, e.org)), e);
      OfOrgLast(log, row, org);
      if e.org == org {
        FirstBadLast(OfOrg(log, org), row);
      } else {
        assert OfOrg(log, org) + [] == OfOrg(log, org);
      }
    }
  }

  /** The rows the verification query returns: every organisation's rows in writing order, and no others. */
  ghost predicate Scans(scan: seq<Row>, log: seq<Row>) {
    && (forall org :: org != "" ==> OfOrg(scan, org) == OfOrg(log, org))
    && (forall r :: r in scan ==> r.entry.org != "")
  }

  lemma {:induction false} NoOrgNoRows(scan: seq<Row>)
    requires forall r :: r in scan ==> r.entry.org != ""
    ensures OfOrg(scan, "") == []
    decreases |scan|
  {
    if scan != [] {
      NoOrgNoRows(scan[..|scan| - 1]);
    }
  }

  /** Main result: verification of a log that was only appended to reports nothing. */
  lemma WrittenLogsVerify(audits: seq<Entry>, scan: seq<Row>, breaks: seq<Break>)
    requires Scans(scan, AppendAll([], audits)) && Reports(breaks, scan)
    ensures breaks == []
  {
    hide OfOrg, AppendAll, FirstBad;
    if breaks != [] {
      var b := breaks[0];
      assert b in breaks;
      NoOrgNoRows(scan);
      if b.org != "" {
        WrittenChainsAreIntact(audits, b.org);
      }
      assert false;
    }
  }

  // ------------------------------------------------------------------
  // Tampering.

  lemma {:induction false} IntactPrefix(chain: seq<Row>, k: nat)
    requires Intact(chain) && k <= |chain|
    ensures Intact(chain[..k])
    ensures k < |chain| ==> Verifies(chain[k], Head(chain[..k]))
    decreases |chain|
  {
    if k < |chain| {
      var front := chain[..|chain| - 1];
      assert Intact(front);
      if k < |front| {
        IntactPrefix(front, k);
        assert front[..k] == chain[..k];
      } else {
        assert chain[..k] == front;
      }
    } else {
      assert chain[..k] == chain;
    }
  }

  /** A chain whose first k rows are intact and whose row k fails breaks exactly there. */
  lemma {:induction false} BreaksAt(chain: seq<Row>, k: nat)
    requires k < |chain| && Intact(chain[..k]) && !Verifies(chain[k], Head(chain[..k]))
    ensures FirstBad(chain) == k
    decreases |chain|
  {
    var front := chain[..|chain| - 1];
    if k < |front| {
      assert front[..k] == chain[..k];
      BreaksAt(front, k);
    } else {
      assert front == chain[..k];
    }
  }

  function Depth(h: Hash): nat {
    match h
    case Root => 0
    case Of(previous, _) => 1 + Depth(previous)
  }

  /** Every hash of an intact chain records its own position. */
  lemma {:induction false} DepthIsPosition(chain: seq<Row>, k: nat)
    requires Intact(chain) && k < |chain|
    ensures Depth(chain[k].previous) == k && Depth(chain[k].hash) == k + 1
    decreases k
  {
    IntactPrefix(chain, k);
    if k > 0 {
      DepthIsPosition(chain, k - 1);
      assert chain[..k][k - 1] == chain[k - 1];
    }
  }

  lemma HeadDepth(chain: seq<Row>)
    requires Intact(chain)
    ensures Depth(Head(chain)) == |chain|
  {
    if chain != [] {
      DepthIsPosition(chain, |chain| - 1);
    }
  }

  /** Altering a row but not its hashes is found exactly when the hashed text, or the version, no longer fits; and at that row. */
  lemma AlterationFoundExactly(chain: seq<Row>, k: nat, r: Row)
    requires Intact(chain) && k < |chain| && r.previous == chain[k].previous && r.hash == chain[k].hash
    ensures var same := (r.version == 1 || r.version == 2) && HashedText(r.version, r.entry) == HashedText(chain[k].version, chain[k].entry);
            FirstBad(chain[k := r]) == if same then |chain| else k
  {
    hide HashedText;
    var altered := chain[k := r];
    assert altered[..k] == chain[..k];
    IntactPrefix(chain, k);
    if Verifies(r, Head(chain[..k])) {
      forall i | 0 <= i < |altered| ensures Verifies(altered[i], altered[i].previous) {
        IntactPrefix(chain, i);
      }
      SameHashesVerify(chain, altered, |chain|);
      assert chain[..|chain|] == chain && altered[..|chain|] == altered;
    } else {
      BreaksAt(altered, k);
    }
  }

  lemma {:induction false} SameHashesVerify(a: seq<Row>, b: seq<Row>, n: nat)
    requires |a| == |b| && n <= |a| && Intact(a)
    requires forall i :: 0 <= i < |a| ==> a[i].hash == b[i].hash && a[i].previous == b[i].previous
    requires forall i :: 0 <= i < |a| ==> Verifies(b[i], b[i].previous)
    ensures Intact(b[..n])
    decreases n
  {
    hide Verifies;
    if n > 0 {
      SameHashesVerify(a, b, n - 1);
      IntactPrefix(a, n - 1);
      var front := b[..n - 1];
      assert b[..n] == front + [b[n - 1]];
      FirstBadLast(front, b[n - 1]);
      HeadsAgree(a[..n - 1], front);
      SamePrevious(a[n - 1], Head(a[..n - 1]), b[n - 1]);
    }
  }

  lemma SamePrevious(x: Row, previous: Hash, y: Row)
    requires Verifies(x, previous) && x.previous == y.previous && Verifies(y, y.previous)
    ensures Verifies(y, previous)
  {
  }

  lemma HeadsAgree(a: seq<Row>, b: seq<Row>)
    requires |a| == |b| && forall i :: 0 <= i < |a| ==> a[i].hash == b[i].hash
    ensures Head(a) == Head(b)
  {
  }

  /** Deleting any row but the last is found at the row that followed it; deleting the last is not found. */
  lemma DeletionFoundExactly(chain: seq<Row>, k: nat)
    requires Intact(chain) && k < |chain|
    ensures var cut := chain[..k] + chain[k + 1..]; FirstBad(cut) == k && (Intact(cut) <==> k == |chain| - 1)
  {
    var cut := chain[..k] + chain[k + 1..];
    IntactPrefix(chain, k);
    if k == |chain| - 1 {
      assert cut == chain[..k];
    } else {
      assert cut[k] == chain[k + 1] && cut[..k] == chain[..k];
      DepthIsPosition(chain, k + 1);
      HeadDepth(chain[..k]);
      BreaksAt(cut, k);
    }
  }

  /** Swapping two rows is found at the earlier place. */
  lemma SwapFound(chain: seq<Row>, i: nat, j: nat)
    requires Intact(chain) && i < j < |chain|
    ensures FirstBad(chain[i := chain[j]][j := chain[i]]) == i
  {
    var swapped := chain[i := chain[j]][j := chain[i]];
    assert swapped[..i] == chain[..i] && swapped[i] == chain[j];
    IntactPrefix(chain, i);
    HeadDepth(chain[..i]);
    DepthIsPosition(chain, j);
    BreaksAt(swapped, i);
  }

  /** Inserting a row anywhere but the end is found, there or at the row after it. */
  lemma InsertionFound(chain: seq<Row>, k: nat, r: Row)
    requires Intact(chain) && k < |chain|
    ensures var grown := chain[..k] + [r] + chain[k..]; !Intact(grown) && k <= FirstBad(grown) <= k + 1
  {
    var grown := chain[..k] + [r] + chain[k..];
    IntactPrefix(chain, k);
    assert grown[..k] == chain[..k] && grown[k] == r && grown[k + 1] == chain[k];
    if Verifies(r, Head(chain[..k])) {
      var front := grown[..k + 1];
      assert front == chain[..k] + [r];
      FirstBadLast(chain[..k], r);
      HeadDepth(front);
      DepthIsPosition(chain, k);
      BreaksAt(grown, k + 1);
    } else {
      BreaksAt(grown, k);
    }
  }

  /** Main result: the head of an intact chain fixes the whole history. Two intact chains
      that end in the same hash have the same length and the same hashed text in every row. */
  lemma {:induction false} HeadFixesHistory(a: seq<Row>, b: seq<Row>)
    requires Intact(a) && Intact(b) && Head(a) == Head(b)
    ensures |a| == |b|
    ensures forall i :: 0 <= i < |a| ==>
              a[i].hash == b[i].hash && HashedText(a[i].version, a[i].entry) == HashedText(b[i].version, b[i].entry)
    decreases |a|
  {
    hide HashedText;
    HeadDepth(a);
    HeadDepth(b);
    if a != [] {
      var x, y := a[..|a| - 1], b[..|b| - 1];
      IntactPrefix(a, |a| - 1);
      IntactPrefix(b, |b| - 1);
      HeadFixesHistory(x, y);
      forall i | 0 <= i < |a| ensures a[i].hash == b[i].hash && HashedText(a[i].version, a[i].entry) == HashedText(b[i].version, b[i].entry) {
        if i < |x| {
          assert x[i] == a[i] && y[i] == b[i];
        }
      }
    }
  }

  /** When one organisation's chain was tampered with and the others were not, its first failing
      row is the only break, however the organisations' rows are interleaved. */
  lemma OneBreakForOneOrg(scan: seq<Row>, breaks: seq<Break>, org: string)
    requires Reports(breaks, scan)
    requires !Intact(OfOrg(scan, org)) && forall other :: other != org ==> Intact(OfOrg(scan, other))
    ensures breaks == [Break(org, OfOrg(scan, org)[FirstBad(OfOrg(scan, org))].entry.id)]
  {
    hide OfOrg, FirstBad;
    var i :| 0 <= i < |breaks| && breaks[i].org == org;
    if |breaks| > 1 {
      var j := if i == 0 then 1 else 0;
      OnlyThatOrg(scan, breaks, org, j);
      assert false;
    }
    assert breaks[0] in breaks;
  }

  lemma OnlyThatOrg(scan: seq<Row>, breaks: seq<Break>, org: string, j: nat)
    requires Reports(breaks, scan) && j < |breaks| && forall other :: other != org ==> Intact(OfOrg(scan, other))
    ensures breaks[j].org == org
  {
    hide OfOrg, FirstBad;
    assert breaks[j] in breaks;
  }
}
