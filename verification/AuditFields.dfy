/** What the hashed text says of the fields it joins. The bar that joins them may
    stand inside a field, and this module says exactly when that matters. */
module AuditFields {
  import opened Prelude
  import opened AuditChain

  // ------------------------------------------------------------------
  // Joining.

  function Bars(s: string): nat {
    if s == "" then 0 else (if s[0] == '|' then 1 else 0) + Bars(s[1..])
  }

  predicate BarFree(s: string) {
    '|' !in s
  }

  ghost predicate AllBarFree(vs: seq<string>) {
    forall i :: 0 <= i < |vs| ==> BarFree(vs[i])
  }

  lemma {:induction false} BarsConcat(s: string, t: string)
    ensures Bars(s + t) == Bars(s) + Bars(t)
    decreases |s|
  {
    if s == "" {
      assert s + t == t;
    } else {
      assert (s + t)[1..] == s[1..] + t;
      BarsConcat(s[1..], t);
    }
  }

  lemma {:induction false} NoBars(s: string)
    ensures Bars(s) == 0 <==> BarFree(s)
    decreases |s|
  {
    if s != "" {
      assert s == [s[0]] + s[1..];
      NoBars(s[1..]);
    }
  }

  lemma JoinFirst(vs: seq<string>)
    requires |vs| > 1
    ensures JoinBars(vs) == vs[0] + "|" + JoinBars(vs[1..])
    ensures Bars(JoinBars(vs)) == Bars(vs[0]) + 1 + Bars(JoinBars(vs[1..]))
  {
    hide Bars;
    BarsConcat(vs[0], "|");
    BarsConcat(vs[0] + "|", JoinBars(vs[1..]));
    OneBar();
  }

  lemma OneBar()
    ensures Bars("|") == 1
  {
    assert "|"[1..] == "";
  }

  /** A joined text has a bar for each gap, and more exactly when a field holds one. */
  lemma {:induction false} BarsOfJoin(vs: seq<string>)
    requires vs != []
    ensures Bars(JoinBars(vs)) >= |vs| - 1
    ensures Bars(JoinBars(vs)) == |vs| - 1 <==> AllBarFree(vs)
    decreases |vs|
  {
    hide Bars, BarFree;
    NoBars(vs[0]);
    if |vs| > 1 {
      JoinFirst(vs);
      BarsOfJoin(vs[1..]);
      assert AllBarFree(vs) <==> BarFree(vs[0]) && AllBarFree(vs[1..]) by {
        assert forall i :: 0 < i < |vs| ==> vs[i] == vs[1..][i - 1];
      }
    }
  }

  lemma NotShorter(a: string, x: string, b: string, y: string)
    requires BarFree(b) && a + "|" + x == b + "|" + y
    ensures |a| >= |b|
  {
    var s := a + "|" + x;
    assert s[|a|] == '|';
    assert forall k :: 0 <= k < |b| ==> s[k] == b[k];
  }

  lemma FirstFieldEnds(a: string, x: string, b: string, y: string)
    requires BarFree(a) && BarFree(b) && a + "|" + x == b + "|" + y
    ensures a == b && x == y
  {
    var s := a + "|" + x;
    NotShorter(a, x, b, y);
    NotShorter(b, y, a, x);
    assert s[..|a|] == a && s[..|b|] == b && s[|a| + 1..] == x && s[|b| + 1..] == y;
  }

  lemma {:induction false} JoinFixesBarFree(vs: seq<string>, ws: seq<string>)
    requires |vs| == |ws| > 0 && AllBarFree(vs) && AllBarFree(ws) && JoinBars(vs) == JoinBars(ws)
    ensures vs == ws
    decreases |vs|
  {
    hide BarFree;
    if |vs| > 1 {
      FirstFieldEnds(vs[0], JoinBars(vs[1..]), ws[0], JoinBars(ws[1..]));
      JoinFixesBarFree(vs[1..], ws[1..]);
      assert vs == [vs[0]] + vs[1..] && ws == [ws[0]] + ws[1..];
    }
  }

  /** Fields without bars are the only ones, of their number, that join to their text. */
  lemma JoinFixes(vs: seq<string>, ws: seq<string>)
    requires |vs| == |ws| > 0 && AllBarFree(vs) && JoinBars(vs) == JoinBars(ws)
    ensures vs == ws
  {
    hide JoinBars, Bars;
    BarsOfJoin(vs);
    BarsOfJoin(ws);
    JoinFixesBarFree(vs, ws);
  }

  /** The joined text sees two neighbours only as their join. */
  lemma {:induction false} NeighboursJoin(vs: seq<string>, i: nat, x: string, y: string)
    requires i + 1 < |vs| && vs[i] + "|" + vs[i + 1] == x + "|" + y
    ensures JoinBars(vs[i := x][i + 1 := y]) == JoinBars(vs)
    decreases i
  {
    var ws := vs[i := x][i + 1 := y];
    if i > 0 {
      assert ws[1..] == vs[1..][i - 1 := x][i := y];
      NeighboursJoin(vs[1..], i - 1, x, y);
    } else {
      assert ws[1..][1..] == vs[1..][1..];
      if |vs| > 2 {
        var rest := "|" + JoinBars(vs[1..][1..]);
        assert JoinBars(vs[1..]) == vs[1] + rest && JoinBars(ws[1..]) == y + rest;
        assert vs[0] + "|" + (vs[1] + rest) == (vs[0] + "|" + vs[1]) + rest;
        assert x + "|" + (y + rest) == (x + "|" + y) + rest;
      }
    }
  }

  // ------------------------------------------------------------------
  // Numbers.

  lemma {:induction false} DigitsArePlain(n: nat)
    ensures Digits(n) != "" && forall i :: 0 <= i < |Digits(n)| ==> '0' <= Digits(n)[i] <= '9'
    decreases n
  {
    if n >= 10 {
      DigitsArePlain(n / 10);
    }
  }

  lemma {:induction false} DigitsAreInjective(m: nat, n: nat)
    requires Digits(m) == Digits(n)
    ensures m == n
    decreases m
  {
    var a, b := Digits(m), Digits(n);
    assert a[|a| - 1] == (m % 10) as char + '0' && b[|b| - 1] == (n % 10) as char + '0';
    assert a[..|a| - 1] == (if m < 10 then "" else Digits(m / 10)) && b[..|b| - 1] == (if n < 10 then "" else Digits(n / 10));
    DigitsArePlain(m / 10);
    DigitsArePlain(n / 10);
    if m >= 10 && n >= 10 {
      DigitsAreInjective(m / 10, n / 10);
    }
  }

  lemma NumberIsPlain(n: Option<int>)
    ensures BarFree(OptionalNumber(n)) && (OptionalNumber(n) == "" <==> n.None?)
    ensures n.Some? ==> (OptionalNumber(n)[0] == '-' <==> n.value < 0)
  {
    if n.Some? {
      DigitsArePlain(if n.value < 0 then -n.value else n.value);
    }
  }

  lemma NumberIsInjective(m: Option<int>, n: Option<int>)
    requires OptionalNumber(m) == OptionalNumber(n)
    ensures m == n
  {
    hide Digits;
    NumberIsPlain(m);
    NumberIsPlain(n);
    if m.Some? {
      var x, y := OptionalNumber(m), OptionalNumber(n);
      if m.value < 0 {
        assert x[1..] == Digits(-m.value) && y[1..] == Digits(-n.value);
        DigitsAreInjective(-m.value, -n.value);
      } else {
        DigitsAreInjective(m.value, n.value);
      }
    }
  }

  // ------------------------------------------------------------------
  // Fields.

  predicate KnownVersion(version: nat) {
    version == 1 || version == 2
  }

  /** The entry without what a version's hash does not cover. */
  function Covered(version: nat, e: Entry): Entry {
    if version == 2 then e.(uncovered := "")
    else e.(sql := "", error := "", ip := "", returned := None, affected := None, uncovered := "")
  }

  /** No covered field holds a bar. */
  predicate Plain(version: nat, e: Entry) {
    && BarFree(e.id) && BarFree(e.user) && BarFree(e.org) && BarFree(e.connection) && BarFree(e.queryHash)
    && BarFree(e.startedAt) && BarFree(e.decision) && BarFree(e.reference)
    && (version == 2 ==> BarFree(e.sql) && BarFree(e.error) && BarFree(e.ip))
  }

  /** The hashed text tells the covered fields. */
  ghost predicate FieldsFixed(version: nat, e: Entry) {
    forall f :: HashedText(version, f) == HashedText(version, e) ==> Covered(version, f) == Covered(version, e)
  }

  lemma ValuesPlain(version: nat, e: Entry)
    requires KnownVersion(version)
    ensures AllBarFree(Values(version, e)) <==> Plain(version, e)
  {
    hide BarFree, OptionalNumber;
    NumberIsPlain(e.returned);
    NumberIsPlain(e.affected);
    var vs := Values(version, e);
    if AllBarFree(vs) {
      assert BarFree(vs[0]) && BarFree(vs[1]) && BarFree(vs[2]) && BarFree(vs[3]) && BarFree(vs[4]) && BarFree(vs[5]) && BarFree(vs[6]) && BarFree(vs[7]);
      assert version == 2 ==> BarFree(vs[8]) && BarFree(vs[9]) && BarFree(vs[10]);
    }
  }

  lemma ValuesFixFields(version: nat, e: Entry, f: Entry)
    requires KnownVersion(version) && Values(version, e) == Values(version, f)
    ensures Covered(version, e) == Covered(version, f)
  {
    hide OptionalNumber;
    var vs, ws := Values(version, e), Values(version, f);
    assert vs[0] == ws[0] && vs[1] == ws[1] && vs[2] == ws[2] && vs[3] == ws[3] && vs[4] == ws[4] && vs[5] == ws[5] && vs[6] == ws[6] && vs[7] == ws[7];
    if version == 2 {
      assert vs[8] == ws[8] && vs[9] == ws[9] && vs[10] == ws[10] && vs[11] == ws[11] && vs[12] == ws[12];
      NumberIsInjective(e.returned, f.returned);
      NumberIsInjective(e.affected, f.affected);
    }
  }

  /** The i-th text field replaced. */
  function WithText(e: Entry, i: nat, s: string): Entry
    requires i < 11
  {
    match i
    case 0 => e.(id := s)
    case 1 => e.(user := s)
    case 2 => e.(org := s)
    case 3 => e.(connection := s)
    case 4 => e.(queryHash := s)
    case 5 => e.(startedAt := s)
    case 6 => e.(decision := s)
    case 7 => e.(reference := s)
    case 8 => e.(sql := s)
    case 9 => e.(error := s)
    case _ => e.(ip := s)
  }

  /** How many text fields a version covers. */
  function Texts(version: nat): nat {
    if version == 2 then 11 else 8
  }

  lemma WithTextValues(version: nat, e: Entry, i: nat, s: string)
    requires KnownVersion(version) && i < Texts(version)
    ensures Values(version, WithText(e, i, s)) == Values(version, e)[i := s]
  {
    hide OptionalNumber;
  }

  /** Two neighbouring text fields may be traded for two others with the same join. */
  lemma TradeUnseen(version: nat, e: Entry, i: nat, x: string, y: string)
    requires KnownVersion(version) && i + 1 < Texts(version)
    requires Values(version, e)[i] + "|" + Values(version, e)[i + 1] == x + "|" + y
    ensures HashedText(version, WithText(WithText(e, i, x), i + 1, y)) == HashedText(version, e)
  {
    hide JoinBars, WithText, Values;
    LengthOfValues(version, e);
    WithTextValues(version, e, i, x);
    WithTextValues(version, WithText(e, i, x), i + 1, y);
    NeighboursJoin(Values(version, e), i, x, y);
  }

  lemma LengthOfValues(version: nat, e: Entry)
    requires KnownVersion(version)
    ensures |Values(version, e)| == if version == 2 then 13 else 8
  {
  }

  /** A field that holds a bar can give what follows it to its neighbour. */
  lemma BarCanMove(version: nat, e: Entry, i: nat) returns (f: Entry)
    requires KnownVersion(version) && i < Texts(version) && !BarFree(Values(version, e)[i])
    ensures HashedText(version, f) == HashedText(version, e) && Values(version, f) != Values(version, e)
  {
    hide HashedText, WithText, Values;
    LengthOfValues(version, e);
    var vs := Values(version, e);
    var k :| 0 <= k < |vs[i]| && vs[i][k] == '|';
    var a, b := vs[i][..k], vs[i][k + 1..];
    assert vs[i] == a + "|" + b;
    if i == 0 {
      var y := b + "|" + vs[1];
      assert vs[0] + "|" + vs[1] == a + "|" + y;
      TradeUnseen(version, e, 0, a, y);
      f := WithText(WithText(e, 0, a), 1, y);
      WithTextValues(version, e, 0, a);
      WithTextValues(version, WithText(e, 0, a), 1, y);
      assert Values(version, f)[0] == a && |a| < |vs[0]|;
    } else {
      var x := vs[i - 1] + "|" + a;
      assert vs[i - 1] + "|" + vs[i] == x + "|" + b;
      TradeUnseen(version, e, i - 1, x, b);
      f := WithText(WithText(e, i - 1, x), i, b);
      WithTextValues(version, e, i - 1, x);
      WithTextValues(version, WithText(e, i - 1, x), i, b);
      assert Values(version, f)[i] == b && |b| < |vs[i]|;
    }
  }

  lemma FieldsFixValues(version: nat, e: Entry, f: Entry)
    requires Covered(version, e) == Covered(version, f) && KnownVersion(version)
    ensures Values(version, e) == Values(version, f)
  {
    ValuesOfCovered(version, e);
    ValuesOfCovered(version, f);
  }

  lemma ValuesOfCovered(version: nat, e: Entry)
    requires KnownVersion(version)
    ensures Values(version, Covered(version, e)) == Values(version, e)
  {
  }

  lemma SomeTextHoldsBar(version: nat, e: Entry) returns (i: nat)
    requires KnownVersion(version) && !Plain(version, e)
    ensures i < Texts(version) && !BarFree(Values(version, e)[i])
  {
    hide BarFree, OptionalNumber;
    ValuesPlain(version, e);
    NumberIsPlain(e.returned);
    NumberIsPlain(e.affected);
    i :| 0 <= i < |Values(version, e)| && !BarFree(Values(version, e)[i]);
  }

  /** Main result: the hashed text tells the fields it covers if and only if none of them holds a bar. */
  lemma FieldsFixedExactly(version: nat, e: Entry)
    requires KnownVersion(version)
    ensures FieldsFixed(version, e) <==> Plain(version, e)
  {
    hide Values, Plain, Covered, JoinBars;
    ValuesPlain(version, e);
    if Plain(version, e) {
      forall f | HashedText(version, f) == HashedText(version, e) ensures Covered(version, f) == Covered(version, e) {
        LengthOfValues(version, e);
        LengthOfValues(version, f);
        JoinFixes(Values(version, e), Values(version, f));
        ValuesFixFields(version, e, f);
      }
    } else {
      var i := SomeTextHoldsBar(version, e);
      var f := BarCanMove(version, e, i);
      if Covered(version, f) == Covered(version, e) {
        FieldsFixValues(version, e, f);
      }
    }
  }

  /** In a real row: a statement that holds a bar can lend its end to the error message. */
  lemma BarInSqlMovesUnseen(e: Entry, a: string, b: string)
    requires e.sql == a + "|" + b
    ensures var f := e.(sql := a, error := b + "|" + e.error);
            HashedText(2, f) == HashedText(2, e) && f.sql != e.sql
  {
    hide HashedText;
    var vs := Values(2, e);
    assert vs[8] == e.sql && vs[9] == e.error;
    assert e.sql + "|" + e.error == a + "|" + (b + "|" + e.error);
    TradeUnseen(2, e, 8, a, b + "|" + e.error);
    assert WithText(WithText(e, 8, a), 9, b + "|" + e.error) == e.(sql := a, error := b + "|" + e.error);
  }

  // ------------------------------------------------------------------
  // In a chain.

  /** Main result: altering the entry of a row whose covered fields hold no bar, and neither its hashes nor
      its version, is found exactly when a covered field changed, and at that row. */
  lemma FieldAlterationFoundExactly(chain: seq<Row>, k: nat, f: Entry)
    requires Intact(chain) && k < |chain| && Plain(chain[k].version, chain[k].entry)
    ensures var r := chain[k];
            FirstBad(chain[k := r.(entry := f)]) == if Covered(r.version, f) == Covered(r.version, r.entry) then |chain| else k
  {
    hide FirstBad, Plain, Covered, Values, HashedText;
    var r := chain[k];
    IntactPrefix(chain, k);
    AlterationFoundExactly(chain, k, r.(entry := f));
    FieldsFixedExactly(r.version, r.entry);
    if Covered(r.version, f) == Covered(r.version, r.entry) {
      FieldsFixValues(r.version, f, r.entry);
      TextOfValues(r.version, f, r.entry);
    }
  }

  lemma TextOfValues(version: nat, e: Entry, f: Entry)
    requires Values(version, e) == Values(version, f)
    ensures HashedText(version, e) == HashedText(version, f)
  {
  }

  /** An entry of version 1 whose reference holds what version 2 hashes after it. */
  function Downgraded(e: Entry, sql: string): Entry {
    e.(reference := JoinBars([e.reference, e.sql, e.error, e.ip, OptionalNumber(e.returned), OptionalNumber(e.affected)]), sql := sql)
  }

  lemma {:induction false} JoinAbsorbs(vs: seq<string>, ws: seq<string>)
    requires ws != []
    ensures JoinBars(vs + [JoinBars(ws)]) == JoinBars(vs + ws)
    decreases |vs|
  {
    if vs == [] {
      assert vs + ws == ws && vs + [JoinBars(ws)] == [JoinBars(ws)];
    } else {
      JoinAbsorbs(vs[1..], ws);
      assert (vs + ws)[1..] == vs[1..] + ws && (vs + [JoinBars(ws)])[1..] == vs[1..] + [JoinBars(ws)];
    }
  }

  /** The version is not hashed: with its reference absorbing the rest of the text, any row passes as
      one of version 1, which does not cover the statement. So no alteration that changes the version is ruled out. */
  lemma VersionOneAbsorbs(chain: seq<Row>, k: nat, sql: string)
    requires Intact(chain) && k < |chain| && chain[k].version == 2
    ensures Intact(chain[k := chain[k].(version := 1, entry := Downgraded(chain[k].entry, sql))])
  {
    hide FirstBad, JoinBars, OptionalNumber;
    var e := chain[k].entry;
    var front := [e.id, e.user, e.org, e.connection, e.queryHash, e.startedAt, e.decision];
    var back := [e.reference, e.sql, e.error, e.ip, OptionalNumber(e.returned), OptionalNumber(e.affected)];
    JoinAbsorbs(front, back);
    assert front + back == Values(2, e) && front + [JoinBars(back)] == Values(1, Downgraded(e, sql));
    AlterationFoundExactly(chain, k, chain[k].(version := 1, entry := Downgraded(e, sql)));
  }

  // ------------------------------------------------------------------
  // In an interleaved log.

  ghost predicate AllIntact(scan: seq<Row>) {
    forall org :: Intact(OfOrg(scan, org))
  }

  /** What was written, as the verification reads it, is such a log. */
  lemma WrittenScansAreIntact(audits: seq<Entry>, scan: seq<Row>)
    requires Scans(scan, AppendAll([], audits))
    ensures AllIntact(scan)
  {
    hide OfOrg, AppendAll, FirstBad;
    forall org ensures Intact(OfOrg(scan, org)) {
      if org == "" {
        NoOrgNoRows(scan);
        NothingToReport();
      } else {
        WrittenChainsAreIntact(audits, org);
      }
    }
  }

  lemma {:induction false} OfOrgConcat(a: seq<Row>, b: seq<Row>, org: string)
    ensures OfOrg(a + b, org) == OfOrg(a, org) + OfOrg(b, org)
    decreases |b|
  {
    if b == [] {
      assert a + b == a;
    } else {
      var front, last := b[..|b| - 1], b[|b| - 1];
      assert a + b == (a + front) + [last];
      OfOrgConcat(a, front, org);
      OfOrgLast(a + front, last, org);
    }
  }

  lemma OfOrgOne(r: Row, org: string)
    ensures OfOrg([r], org) == if r.entry.org == org then [r] else []
  {
    OfOrgLast([], r, org);
    assert [] + [r] == [r];
  }

  /** The place of row p in its organisation's chain. */
  function Place(scan: seq<Row>, p: nat): nat
    requires p < |scan|
  {
    |OfOrg(scan[..p], scan[p].entry.org)|
  }

  lemma OfOrgAround(scan: seq<Row>, p: nat, org: string)
    requires p < |scan|
    ensures OfOrg(scan, org) == OfOrg(scan[..p], org) + OfOrg([scan[p]], org) + OfOrg(scan[p + 1..], org)
    ensures OfOrg([scan[p]], org) == if scan[p].entry.org == org then [scan[p]] else []
  {
    hide OfOrg;
    assert scan == scan[..p] + [scan[p]] + scan[p + 1..];
    OfOrgConcat(scan[..p] + [scan[p]], scan[p + 1..], org);
    OfOrgConcat(scan[..p], [scan[p]], org);
    OfOrgOne(scan[p], org);
  }

  lemma OfOrgAltered(scan: seq<Row>, p: nat, r: Row, org: string)
    requires p < |scan| && r.entry.org == scan[p].entry.org
    ensures org == r.entry.org ==> Place(scan, p) < |OfOrg(scan, org)| && OfOrg(scan, org)[Place(scan, p)] == scan[p]
    ensures OfOrg(scan[p := r], org) == if org == r.entry.org then OfOrg(scan, org)[Place(scan, p) := r] else OfOrg(scan, org)
  {
    hide OfOrg;
    var altered := scan[p := r];
    OfOrgAround(scan, p, org);
    OfOrgAround(altered, p, org);
    assert altered[..p] == scan[..p] && altered[p + 1..] == scan[p + 1..];
    if org == r.entry.org {
      assert OfOrg(scan, org) == OfOrg(scan[..p], org) + [scan[p]] + OfOrg(scan[p + 1..], org);
    }
  }

  lemma IntactFor(scan: seq<Row>, org: string)
    requires AllIntact(scan)
    ensures Intact(OfOrg(scan, org))
  {
  }

  lemma NoBreaks(scan: seq<Row>, breaks: seq<Break>)
    requires AllIntact(scan) && Reports(breaks, scan)
    ensures breaks == []
  {
    hide OfOrg, FirstBad, AllIntact;
    if breaks != [] {
      assert breaks[0] in breaks;
      IntactFor(scan, breaks[0].org);
    }
  }

  /** Main result: an alteration in the interleaved log is answered with exactly one break, at the altered
      row, or with none when its hashed text and a known version still fit. */
  lemma AlteredLogBreaksOnce(scan: seq<Row>, p: nat, r: Row, breaks: seq<Break>)
    requires AllIntact(scan) && p < |scan| && Reports(breaks, scan[p := r])
    requires r.entry.org == scan[p].entry.org && r.previous == scan[p].previous && r.hash == scan[p].hash
    ensures var same := KnownVersion(r.version) && HashedText(r.version, r.entry) == HashedText(scan[p].version, scan[p].entry);
            breaks == if same then [] else [Break(r.entry.org, r.entry.id)]
  {
    hide OfOrg, FirstBad, HashedText, Reports;
    var org := r.entry.org;
    var altered, chain, k := scan[p := r], OfOrg(scan, org), Place(scan, p);
    forall other | other != org ensures Intact(OfOrg(altered, other)) {
      OfOrgAltered(scan, p, r, other);
    }
    OfOrgAltered(scan, p, r, org);
    AlterationFoundExactly(chain, k, r);
    if Intact(chain[k := r]) {
      NoBreaks(altered, breaks);
    } else {
      OneBreakForOneOrg(altered, breaks, org);
    }
  }

  /** Main result: a deleted row is answered with one break, at the row of its organisation that followed it, or with none if there was none. */
  lemma DeletedLogBreaksOnce(scan: seq<Row>, p: nat, breaks: seq<Break>)
    requires AllIntact(scan) && p < |scan| && Reports(breaks, scan[..p] + scan[p + 1..])
    ensures var org := scan[p].entry.org;
            var chain, k := OfOrg(scan, org), Place(scan, p);
            breaks == if k + 1 >= |chain| then [] else [Break(org, chain[k + 1].entry.id)]
  {
    hide OfOrg, FirstBad, Reports;
    var org := scan[p].entry.org;
    var cut, chain, k := scan[..p] + scan[p + 1..], OfOrg(scan, org), Place(scan, p);
    OfOrgAltered(scan, p, scan[p], org);
    forall other ensures OfOrg(cut, other) == if other == org then chain[..k] + chain[k + 1..] else OfOrg(scan, other) {
      OfOrgConcat(scan[..p], scan[p + 1..], other);
      OfOrgAround(scan, p, other);
      assert other != org ==> OfOrg(scan[..p], other) + [] == OfOrg(scan[..p], other);
      assert other == org ==> chain == OfOrg(scan[..p], org) + [scan[p]] + OfOrg(scan[p + 1..], org);
    }
    DeletionFoundExactly(chain, k);
    if k + 1 >= |chain| {
      NoBreaks(cut, breaks);
    } else {
      OneBreakForOneOrg(cut, breaks, org);
    }
  }

  lemma {:induction false} OfOrgGrows(rows: seq<Row>, p: nat, q: nat, org: string)
    requires p < q <= |rows| && rows[p].entry.org == org
    ensures |OfOrg(rows[..p], org)| < |OfOrg(rows[..q], org)|
    decreases q
  {
    assert rows[..q] == rows[..q - 1] + [rows[q - 1]];
    OfOrgLast(rows[..q - 1], rows[q - 1], org);
    if p < q - 1 {
      OfOrgGrows(rows, p, q - 1, org);
    }
  }

  /** Main result: two swapped rows of one organisation are answered with one break, at the earlier place. */
  lemma SwappedLogBreaksOnce(scan: seq<Row>, p: nat, q: nat, breaks: seq<Break>)
    requires AllIntact(scan) && p < q < |scan| && scan[p].entry.org == scan[q].entry.org
    requires Reports(breaks, scan[p := scan[q]][q := scan[p]])
    ensures breaks == [Break(scan[q].entry.org, scan[q].entry.id)]
  {
    hide OfOrg, FirstBad, Reports, Place;
    var org := scan[p].entry.org;
    var half := scan[p := scan[q]];
    var swapped, chain, i, j := half[q := scan[p]], OfOrg(scan, org), Place(scan, p), Place(scan, q);
    PlacesInOrder(scan, p, q);
    OfOrgAltered(scan, p, scan[q], org);
    OfOrgAltered(scan, q, scan[q], org);
    forall other ensures OfOrg(swapped, other) == if other == org then chain[i := chain[j]][j := chain[i]] else OfOrg(scan, other) {
      OfOrgAltered(scan, p, scan[q], other);
      OfOrgAltered(scan, q, scan[q], other);
      OfOrgAltered(half, q, scan[p], other);
    }
    SwapFound(chain, i, j);
    OneBreakForOneOrg(swapped, breaks, org);
  }

  lemma PlacesInOrder(scan: seq<Row>, p: nat, q: nat)
    requires p < q < |scan| && scan[p].entry.org == scan[q].entry.org
    ensures Place(scan, p) < Place(scan, q) == Place(scan[p := scan[q]], q)
  {
    hide OfOrg;
    var org := scan[p].entry.org;
    OfOrgGrows(scan, p, q, org);
    assert scan[p := scan[q]][..q] == scan[..q][p := scan[q]];
    OfOrgAltered(scan[..q], p, scan[q], org);
  }

  /** Where a row stands among another organisation's rows. */
  lemma OfOrgMoved(scan: seq<Row>, p: nat, r: Row, org: string)
    requires p < |scan| && r.entry.org != scan[p].entry.org
    ensures var a, k, j := scan[p].entry.org, Place(scan, p), |OfOrg(scan[..p], r.entry.org)|;
            && k < |OfOrg(scan, a)| && OfOrg(scan, a)[k] == scan[p] && j <= |OfOrg(scan, r.entry.org)|
            && OfOrg(scan[p := r], org)
            == if org == a then OfOrg(scan, a)[..k] + OfOrg(scan, a)[k + 1..]
               else if org == r.entry.org then OfOrg(scan, org)[..j] + [r] + OfOrg(scan, org)[j..]
               else OfOrg(scan, org)
  {
    hide OfOrg;
    var moved, a, b := scan[p := r], scan[p].entry.org, r.entry.org;
    assert moved[..p] == scan[..p] && moved[p + 1..] == scan[p + 1..];
    OfOrgAround(scan, p, org);
    OfOrgAround(moved, p, org);
    OfOrgAround(scan, p, a);
    OfOrgAround(scan, p, b);
    assert OfOrg(scan, a) == OfOrg(scan[..p], a) + [scan[p]] + OfOrg(scan[p + 1..], a);
    assert OfOrg(scan, b) == OfOrg(scan[..p], b) + OfOrg(scan[p + 1..], b);
    if org != a && org != b {
      assert OfOrg(scan[..p], org) + [] == OfOrg(scan[..p], org);
    }
  }

  /** A row whose bar-free entry got another organisation verifies nowhere. */
  lemma MovedRowFails(e: Row, r: Row, previous: Hash)
    requires Verifies(e, e.previous) && Plain(e.version, e.entry)
    requires r.version == e.version && r.hash == e.hash && r.entry.org != e.entry.org
    ensures !Verifies(r, previous)
  {
    hide HashedText, Plain;
    FieldsFixedExactly(e.version, e.entry);
    assert Covered(e.version, r.entry) != Covered(e.version, e.entry);
  }

  lemma {:induction false} OneEach(breaks: seq<Break>, orgs: set<string>)
    requires forall i, j :: 0 <= i < j < |breaks| ==> breaks[i].org != breaks[j].org
    requires forall i :: 0 <= i < |breaks| ==> breaks[i].org in orgs
    ensures |breaks| <= |orgs|
    decreases |breaks|
  {
    if breaks != [] {
      OneEach(breaks[1..], orgs - {breaks[0].org});
    }
  }

  /** What is reported when two organisations at most have a broken chain. */
  lemma TwoReported(scan: seq<Row>, breaks: seq<Break>, a: string, b: string)
    requires Reports(breaks, scan) && a != b && !Intact(OfOrg(scan, b))
    requires forall other :: other != a && other != b ==> Intact(OfOrg(scan, other))
    ensures Break(b, OfOrg(scan, b)[FirstBad(OfOrg(scan, b))].entry.id) in breaks
    ensures !Intact(OfOrg(scan, a)) ==> Break(a, OfOrg(scan, a)[FirstBad(OfOrg(scan, a))].entry.id) in breaks
    ensures |breaks| == if Intact(OfOrg(scan, a)) then 1 else 2
  {
    hide OfOrg, FirstBad;
    forall i | 0 <= i < |breaks| ensures breaks[i].org == b || (breaks[i].org == a && !Intact(OfOrg(scan, a))) {
      assert breaks[i] in breaks;
      assert Accurate(breaks[i], OfOrg(scan, breaks[i].org));
    }
    var i :| 0 <= i < |breaks| && breaks[i].org == b;
    assert breaks[i] in breaks;
    OneEach(breaks, if Intact(OfOrg(scan, a)) then {b} else {a, b});
    if !Intact(OfOrg(scan, a)) {
      var j :| 0 <= j < |breaks| && breaks[j].org == a;
      assert breaks[j] in breaks;
    }
  }

  /** Main result: a row whose bar-free entry is given another organisation, hashes and version kept, breaks that organisation's
      chain at the row itself, and its own organisation's at the row that followed it, if there was one; and nothing else. */
  lemma MovedLogBreaks(scan: seq<Row>, p: nat, r: Row, breaks: seq<Break>)
    requires AllIntact(scan) && p < |scan| && Reports(breaks, scan[p := r])
    requires r.entry.org != scan[p].entry.org && r.version == scan[p].version && r.previous == scan[p].previous && r.hash == scan[p].hash
    requires Plain(scan[p].version, scan[p].entry)
    ensures var a := scan[p].entry.org;
            var chain, k := OfOrg(scan, a), Place(scan, p);
            && Break(r.entry.org, r.entry.id) in breaks
            && (k + 1 < |chain| ==> Break(a, chain[k + 1].entry.id) in breaks)
            && |breaks| == if k + 1 < |chain| then 2 else 1
  {
    hide OfOrg, FirstBad, Reports, Plain, Verifies, Place;
    var a, b := scan[p].entry.org, r.entry.org;
    var moved, k, j := scan[p := r], Place(scan, p), |OfOrg(scan[..p], b)|;
    var chain, others := OfOrg(scan, a), OfOrg(scan, b);
    forall other | other != a && other != b ensures Intact(OfOrg(moved, other)) {
      OfOrgMoved(scan, p, r, other);
    }
    OfOrgMoved(scan, p, r, a);
    OfOrgMoved(scan, p, r, b);
    DeletionFoundExactly(chain, k);
    IntactPrefix(chain, k);
    VerifiesItself(scan[p], Head(chain[..k]));
    MovedRowFails(scan[p], r, Head(others[..j]));
    var grown := others[..j] + [r] + others[j..];
    assert grown[..j] == others[..j] && grown[j] == r;
    IntactPrefix(others, j);
    BreaksAt(grown, j);
    TwoReported(moved, breaks, a, b);
  }

  lemma VerifiesItself(r: Row, previous: Hash)
    requires Verifies(r, previous)
    ensures Verifies(r, r.previous)
  {
  }
}
