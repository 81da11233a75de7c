/** Which table a backup reads: the one the lower-cased name of the statement's table
    names, and when that is the statement's own. */
module BackupTable {
  import opened Prelude
  import opened Bytes
  import opened Lexer
  import opened Classifier
  import opened BackupTarget

  /** The name as it is written, without its quotes. */
  function WrittenName(t: Token): string {
    if t.quoted && |t.text| >= 2 then t.text[1..|t.text| - 1] else t.text
  }

  /** The name the database takes it for: a database may fold names without quotes to lower case, as PostgreSQL does. */
  function OwnName(folds: bool, t: Token): string {
    if folds && !t.quoted then ToLower(t.text) else WrittenName(t)
  }

  predicate Quote(c: char) {
    c in "\"`[]"
  }

  /** What the lexer says of a name. */
  predicate KnowsName(t: Token) {
    t.identifier ==>
      if t.quoted then |t.text| >= 2 && Quote(t.text[0]) && Quote(t.text[|t.text| - 1]) && t.lower == BareName(t.text)
      else t.lower == ToLower(t.text)
  }

  lemma StepKnowsName(d: Dialect, s: string, i: nat, executable: nat, depth: nat)
    requires i < |s| && Scan(d, s, i, executable).Emit?
    ensures KnowsName(MakeToken(s, i, Scan(d, s, i, executable), depth))
  {
    hide BareName, ToLower, DollarEnd, CommentStep, Lexer.Find, StringEnd, QuoteEnd, IdentEnd;
    if Scan(d, s, i, executable).quoted {
      var e := QuoteEnd(s, i + 1, CloserOf(s[i]));
      assert s[i..e + 1][0] == s[i] && s[i..e + 1][e - i] == s[e];
    }
  }

  lemma {:induction false} NamesAreKnown(d: Dialect, s: string, i: nat, depth: nat, executable: nat)
    requires i <= |s| && LexFrom(d, s, i, depth, executable).Ok?
    ensures forall t :: t in LexFrom(d, s, i, depth, executable).value ==> KnowsName(t)
    decreases |s| - i
  {
    hide Scan, KnowsName, MakeToken;
    if i < |s| {
      var step := Scan(d, s, i, executable);
      if step.Skip? {
        NamesAreKnown(d, s, step.next, depth, step.executable);
      } else {
        StepKnowsName(d, s, i, executable, TokenDepth(s[i], depth));
        NamesAreKnown(d, s, step.next, DepthAfter(s[i], depth), executable);
      }
    }
  }

  /** Only the quotes around a name come off, unless the name holds some itself. */
  lemma OnlyOuterQuotes(text: string)
    requires |text| >= 2 && Quote(text[0]) && Quote(text[|text| - 1])
    requires forall k :: 1 <= k < |text| - 1 ==> !Quote(text[k])
    ensures BareName(text) == ToLower(text[1..|text| - 1])
  {
    hide ToLower;
    var front := text[1..];
    assert |text| > 2 ==> front[0] == text[1] && TrimQuotesLeft(front) == front;
    if |text| == 2 {
      assert front == [text[1]] && front[1..] == "" && TrimQuotesLeft(front) == TrimQuotesLeft("") == "";
    } else {
      var inner := front[..|front| - 1];
      assert inner[|inner| - 1] == text[|text| - 2] && TrimQuotesRight(inner) == inner;
      assert inner == text[1..|text| - 1];
    }
  }

  // ------------------------------------------------------------------
  // The token that names the table.

  /** Token j ends the table's name that the word at i introduces. */
  predicate NamesTableAt(ts: seq<Token>, i: nat, j: nat) {
    && i < |ts| && IntroducesTable(ts, i) && FirstPart(ts, i) < |ts| && ts[FirstPart(ts, i)].identifier
    && j == DottedEnd(ts, FirstPart(ts, i)) - 1
  }

  /** Where the name begins that the word at i introduces, a TABLE between them skipped. */
  function FirstPart(ts: seq<Token>, i: nat): nat
    requires i < |ts|
  {
    if i + 1 < |ts| && ts[i + 1].lower == "table" && ts[i].lower != "table" then i + 2 else i + 1
  }

  /** From token `first` to token j stands a name of parts with dots between, and no more of it after j. */
  ghost predicate DottedName(ts: seq<Token>, first: nat, j: nat) {
    && first <= j < |ts| && (j - first) % 2 == 0
    && (forall k :: first <= k <= j && (k - first) % 2 == 0 ==> ts[k].identifier)
    && (forall k :: first <= k <= j && (k - first) % 2 == 1 ==> ts[k].text == ".")
    && !(j + 2 < |ts| && ts[j + 1].text == "." && ts[j + 2].identifier)
  }

  lemma {:induction false} DottedParts(ts: seq<Token>, first: nat)
    requires first < |ts| && ts[first].identifier
    ensures DottedName(ts, first, DottedEnd(ts, first) - 1)
    decreases |ts| - first
  {
    if first + 2 < |ts| && ts[first + 1].text == "." && ts[first + 2].identifier {
      DottedParts(ts, first + 2);
    }
  }

  lemma TableIsNamed(ts: seq<Token>, i: nat) returns (j: nat)
    requires i < |ts| && TableAt(ts, i).Some?
    ensures j < |ts| && NamesTableAt(ts, i, j) && ts[j].identifier && TableAt(ts, i).value.name == ts[j].lower
    ensures DottedName(ts, FirstPart(ts, i), j)
    ensures TableAt(ts, i).value.schema == if j > FirstPart(ts, i) then ts[j - 2].lower else ""
  {
    hide Reserved, DottedEnd, IntroducesTable;
    var first := FirstPart(ts, i);
    j := DottedEnd(ts, first) - 1;
    DottedParts(ts, first);
  }

  lemma {:induction false} TablesAreFound(ts: seq<Token>, i: nat, seen: set<string>, t: TableRef) returns (k: nat)
    requires t in ExtractTables(ts, i, seen)
    ensures k < |ts| && TableAt(ts, k) == Some(t)
    decreases |ts| - i
  {
    hide TableAt, TableKey;
    if TableAt(ts, i) == Some(t) {
      k := i;
    } else if TableAt(ts, i).Some? && TableKey(TableAt(ts, i).value) !in seen {
      k := TablesAreFound(ts, i + 1, seen + {TableKey(TableAt(ts, i).value)}, t);
    } else {
      k := TablesAreFound(ts, i + 1, seen, t);
    }
  }

  /** Main result: a backup reads the table that the lower-cased name of the statement's table names, and that is the
      statement's own if and only if the database folds the name itself, or the name as written is in lower case. */
  lemma ReadsOwnTableExactly(d: Dialect, info: Info, target: Target, folds: bool) returns (i: nat, j: nat)
    requires Lex(d, info.raw) == Ok(info.tokens) && info.tables == ExtractTables(info.tokens, 0, {})
    requires BackupTargetOf(info) == Some(target)
    ensures j < |info.tokens| && NamesTableAt(info.tokens, i, j) && target.table == info.tokens[j].lower
    ensures DottedName(info.tokens, FirstPart(info.tokens, i), j)
    ensures target.schema == if j > FirstPart(info.tokens, i) then info.tokens[j - 2].lower else ""
    ensures var t := info.tokens[j];
            (t.quoted ==> forall k :: 1 <= k < |t.text| - 1 ==> !Quote(t.text[k])) ==>
              (target.table == OwnName(folds, t) <==> (folds && !t.quoted) || ToLower(WrittenName(t)) == WrittenName(t))
  {
    hide Lex, ToLower, ExtractTables, TableAt, ConditionIn, SimpleShape, BareName, NamesTableAt, DottedName;
    var table := info.tables[0];
    assert target.table == table.name && target.schema == table.schema && table in info.tables;
    i := TablesAreFound(info.tokens, 0, {}, table);
    j := TableIsNamed(info.tokens, i);
    NameIsKnown(d, info.raw, j);
    var t := info.tokens[j];
    if t.quoted && forall k :: 1 <= k < |t.text| - 1 ==> !Quote(t.text[k]) {
      OnlyOuterQuotes(t.text);
    }
  }

  lemma NameIsKnown(d: Dialect, s: string, j: nat)
    requires Lex(d, s).Ok? && j < |Lex(d, s).value|
    ensures KnowsName(Lex(d, s).value[j])
  {
    hide LexFrom, KnowsName;
    NamesAreKnown(d, s, 0, 0, 0);
    assert Lex(d, s).value[j] in LexFrom(d, s, 0, 0, 0).value;
  }

  /** A table whose quoted name holds an upper-case letter: the token `"Users"` makes the backup read `users`. */
  lemma UpperCaseNameIsMissed(t: Token, folds: bool)
    requires KnowsName(t) && t.identifier && t.quoted && t.text == "\"Users\""
    ensures t.lower == "users" && OwnName(folds, t) == "Users"
  {
    hide BareName, ToLower;
    assert forall k :: 1 <= k < 6 ==> !Quote(t.text[k]);
    OnlyOuterQuotes(t.text);
    assert t.text[1..6] == "Users";
    assert ToLower("Users") == "users" by { UsersInLowerCase(); }
  }

  lemma UsersInLowerCase()
    ensures ToLower("Users") == "users"
  {
    assert ToLower("Users") == ['u', 's', 'e', 'r', 's'];
  }
}
