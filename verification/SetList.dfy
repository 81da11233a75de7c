/** Reading the columns an UPDATE writes off its SET list, and choosing what
    the backup reads. Reading inverts printing. */
module SetList {
  import opened Prelude
  import opened Bytes
  import opened Lexer
  import opened RowBackup
  import opened Restore
  import opened RestoreExact

  function Top(ts: seq<Token>): seq<Token> {
    if ts == [] then [] else (if ts[0].depth == 0 then [ts[0]] else []) + Top(ts[1..])
  }

  predicate NumberToken(t: Token) {
    !t.quoted && t.text != "" && Digit(t.text[0])
  }

  predicate NameToken(t: Token) {
    t.identifier && !NumberToken(t)
  }

  /** Position of the first unquoted `word` at or after i, or |top|. */
  function FirstKeyword(top: seq<Token>, word: string, i: nat): (r: nat)
    requires i <= |top|
    ensures i <= r <= |top|
    decreases |top| - i
  {
    if i == |top| || top[i].Keyword(word) then i else FirstKeyword(top, word, i + 1)
  }

  /** Position of the last part of the dotted name that starts at i. */
  function NameEnd(top: seq<Token>, i: nat, end: nat): (r: nat)
    requires i < end <= |top|
    ensures i <= r < end
    decreases end - i
  {
    if i + 2 < end && top[i + 1].text == "." && NameToken(top[i + 2]) then NameEnd(top, i + 2, end) else i
  }

  /** Position after the next comma, or past the end. */
  function AfterComma(top: seq<Token>, i: nat, end: nat): (r: nat)
    requires i <= end <= |top|
    ensures i < r <= end + 1
    decreases end - i
  {
    if i < end && top[i].text != "," then AfterComma(top, i + 1, end) else i + 1
  }

  /** The column each assignment from position i on writes, as the token that names it. */
  function Targets(top: seq<Token>, i: nat, end: nat): Option<seq<Token>>
    requires end <= |top|
    decreases end - i
  {
    if i >= end then Some([])
    else if !NameToken(top[i]) then None
    else
      var name := NameEnd(top, i, end);
      if name + 1 >= end || top[name + 1].text != "=" then None
      else
        After([top[name]], Targets(top, AfterComma(top, name + 1, end), end))
  }

  predicate Listed(names: seq<Token>, t: Token) {
    exists i :: 0 <= i < |names| && names[i].lower == t.lower
  }

  /** Each name once, where it first stands. */
  function Unique(names: seq<Token>): seq<Token> {
    if names == [] then []
    else
      var front := Unique(names[..|names| - 1]);
      var last := names[|names| - 1];
      if Listed(front, last) then front else front + [last]
  }

  /** The assigned columns, or None when the list is not a plain column-by-column assignment. */
  function AssignedColumns(ts: seq<Token>): Option<seq<Token>> {
    var top := Top(ts);
    var set_ := FirstKeyword(top, "set", 0);
    if set_ == |top| then None
    else
      var end := FirstKeyword(top, "where", set_ + 1);
      match Targets(top, set_ + 1, end)
      case None => None
      case Some(names) => if names == [] then None else Some(Unique(names))
  }

  // ------------------------------------------------------------------
  // The loop of the program.

  function After(read: seq<Token>, rest: Option<seq<Token>>): Option<seq<Token>> {
    if rest.None? then None else Some(read + rest.value)
  }

  lemma AfterNothing(rest: Option<seq<Token>>)
    ensures After([], rest) == rest
  {
    if rest.Some? {
      assert [] + rest.value == rest.value;
    }
  }

  lemma AfterTwice(a: seq<Token>, b: seq<Token>, rest: Option<seq<Token>>)
    ensures After(a, After(b, rest)) == After(a + b, rest)
  {
    if rest.Some? {
      assert a + (b + rest.value) == a + b + rest.value;
    }
  }

  method ReadAssignedColumns(ts: seq<Token>) returns (r: Option<seq<Token>>)
    ensures r == AssignedColumns(ts)
  {
    var top := Top(ts);
    var start := FirstKeyword(top, "set", 0);
    if start == |top| {
      return None;
    }
    start := start + 1;
    var end := FirstKeyword(top, "where", start);
    if start >= end {
      return None;
    }
    var names: seq<Token> := [];
    ghost var read: seq<Token> := [];
    var index := start;
    AfterNothing(Targets(top, start, end));
    while index < end
      invariant start <= index <= end + 1
      invariant names == Unique(read) && (index > start ==> read != [])
      invariant Targets(top, start, end) == After(read, Targets(top, index, end))
      decreases end - index
    {
      if !NameToken(top[index]) {
        return None;
      }
      var name := NameEnd(top, index, end);
      if name + 1 >= end || top[name + 1].text != "=" {
        return None;
      }
      AfterTwice(read, [top[name]], Targets(top, AfterComma(top, name + 1, end), end));
      assert (read + [top[name]])[..|read|] == read;
      if !Listed(names, top[name]) {
        names := names + [top[name]];
      }
      read := read + [top[name]];
      index := AfterComma(top, name + 1, end);
    }
    assert read + [] == read;
    r := Some(names);
  }

  // ------------------------------------------------------------------
  // Printing a SET list.

  /** column parts, then a value of any tokens whose top level holds no comma and no WHERE. */
  datatype Item = Item(path: seq<Token>, value: seq<Token>)

  predicate PathToken(t: Token) {
    t.depth == 0 && NameToken(t) && !t.Keyword("where")
  }

  predicate ValueToken(t: Token) {
    t.depth == 0 ==> t.text != "," && !t.Keyword("where")
  }

  predicate Printable(item: Item) {
    && item.path != []
    && (forall i :: 0 <= i < |item.path| ==> PathToken(item.path[i]))
    && (forall i :: 0 <= i < |item.value| ==> ValueToken(item.value[i]))
  }

  function Punctuation(text: string): Token {
    Token(text, text, 0, 0, 0, false, false)
  }

  function PrintPath(path: seq<Token>): seq<Token>
    requires path != []
  {
    if |path| == 1 then [path[0]] else [path[0], Punctuation(".")] + PrintPath(path[1..])
  }

  function PrintItem(item: Item): seq<Token>
    requires Printable(item)
  {
    PrintPath(item.path) + [Punctuation("=")] + item.value
  }

  function PrintList(items: seq<Item>): seq<Token>
    requires items != [] && forall i :: 0 <= i < |items| ==> Printable(items[i])
  {
    if |items| == 1 then PrintItem(items[0]) else PrintItem(items[0]) + [Punctuation(",")] + PrintList(items[1..])
  }

  function Columns(items: seq<Item>): (r: seq<Token>)
    requires forall i :: 0 <= i < |items| ==> items[i].path != []
    ensures |r| == |items|
  {
    if items == [] then [] else [items[0].path[|items[0].path| - 1]] + Columns(items[1..])
  }

  // ------------------------------------------------------------------
  // Reading what was printed.

  lemma {:induction false} TopConcat(a: seq<Token>, b: seq<Token>)
    ensures Top(a + b) == Top(a) + Top(b)
    decreases |a|
  {
    if a == [] {
      assert a + b == b;
    } else {
      assert (a + b)[1..] == a[1..] + b && (a + b)[0] == a[0];
      var first := if a[0].depth == 0 then [a[0]] else [];
      assert Top(a + b) == first + Top(a[1..] + b) && Top(a) == first + Top(a[1..]);
      hide Top;
      TopConcat(a[1..], b);
      assert first + (Top(a[1..]) + Top(b)) == first + Top(a[1..]) + Top(b);
    }
  }

  lemma {:induction false} TopIsTop(ts: seq<Token>)
    ensures forall i :: 0 <= i < |Top(ts)| ==> Top(ts)[i] in ts && Top(ts)[i].depth == 0
    ensures (forall i :: 0 <= i < |ts| ==> ts[i].depth == 0) ==> Top(ts) == ts
    decreases |ts|
  {
    if ts != [] {
      TopIsTop(ts[1..]);
    }
  }

  lemma {:induction false} PathDepth(path: seq<Token>)
    requires path != [] && forall i :: 0 <= i < |path| ==> PathToken(path[i])
    ensures Top(PrintPath(path)) == PrintPath(path)
    ensures forall i :: 0 <= i < |PrintPath(path)| ==> !PrintPath(path)[i].Keyword("where")
    decreases |path|
  {
    if |path| > 1 {
      PathDepth(path[1..]);
      TopConcat([path[0], Punctuation(".")], PrintPath(path[1..]));
      TopIsTop([path[0], Punctuation(".")]);
    }
  }

  /** The dotted name that starts at i ends at its last part. */
  lemma {:induction false} PathReads(top: seq<Token>, i: nat, end: nat, path: seq<Token>)
    requires path != [] && forall k :: 0 <= k < |path| ==> PathToken(path[k])
    requires i + |PrintPath(path)| < end <= |top| && top[i..i + |PrintPath(path)|] == PrintPath(path)
    requires top[i + |PrintPath(path)|].text == "="
    ensures NameEnd(top, i, end) == i + |PrintPath(path)| - 1
    ensures top[i] == path[0] && top[i + |PrintPath(path)| - 1] == path[|path| - 1]
    decreases |path|
  {
    var n := |PrintPath(path)|;
    assert top[i] == top[i..i + n][0];
    if |path| > 1 {
      assert top[i + 1] == top[i..i + n][1] && top[i + 2] == top[i..i + n][2];
      assert PrintPath(path)[2..] == PrintPath(path[1..]);
      assert top[i + 2..i + n] == top[i..i + n][2..];
      PathReads(top, i + 2, end, path[1..]);
      assert NameToken(path[1]);
    } else {
      assert top[i + 1].text != ".";
    }
  }

  lemma {:induction false} ValueSkipped(top: seq<Token>, i: nat, j: nat, end: nat)
    requires i <= j <= end <= |top| && (forall k :: i <= k < j ==> top[k].text != ",")
    requires j == end || top[j].text == ","
    ensures AfterComma(top, i, end) == j + 1
    decreases j - i
  {
    if i < j {
      ValueSkipped(top, i + 1, j, end);
    }
  }

  lemma TopItem(item: Item)
    requires Printable(item)
    ensures Top(PrintItem(item)) == PrintPath(item.path) + [Punctuation("=")] + Top(item.value)
    ensures forall i :: 0 <= i < |Top(item.value)| ==> Top(item.value)[i].text != "," && !Top(item.value)[i].Keyword("where")
    ensures forall i :: 0 <= i < |Top(PrintItem(item))| ==> !Top(PrintItem(item))[i].Keyword("where")
  {
    hide Top, PrintPath;
    var path, equals := PrintPath(item.path), [Punctuation("=")];
    PathDepth(item.path);
    TopConcat(path + equals, item.value);
    TopConcat(path, equals);
    TopIsTop(equals);
    TopIsTop(item.value);
    var value := Top(item.value);
    forall i | 0 <= i < |value| ensures value[i].text != "," && !value[i].Keyword("where") {
      assert value[i] in item.value;
    }
    assert Top(PrintItem(item)) == path + equals + value;
  }

  lemma ThreeSlices(top: seq<Token>, i: nat, end: nat, first: seq<Token>, comma: Token, rest: seq<Token>)
    requires i <= end <= |top| && top[i..end] == first + [comma] + rest
    ensures end == i + |first| + 1 + |rest|
    ensures top[i..i + |first|] == first && top[i + |first|] == comma && top[i + |first| + 1..end] == rest
  {
    assert |top[i..end]| == |first| + 1 + |rest|;
    assert top[i..i + |first|] == top[i..end][..|first|];
    assert top[i + |first|] == top[i..end][|first|];
    assert top[i + |first| + 1..end] == top[i..end][|first| + 1..];
  }

  lemma PrintableHas(item: Item)
    requires Printable(item)
    ensures item.path != [] && (forall k :: 0 <= k < |item.path| ==> PathToken(item.path[k])) && PrintPath(item.path) != []
  {
  }

  lemma NoCommaIn(top: seq<Token>, i: nat, j: nat, value: seq<Token>)
    requires i <= j <= |top| && top[i..j] == value && forall k :: 0 <= k < |value| ==> value[k].text != ","
    ensures forall k :: i <= k < j ==> top[k].text != ","
  {
    forall k | i <= k < j ensures top[k].text != "," {
      assert top[k] == top[i..j][k - i];
    }
  }

  /** One assignment: its name, then the position after the comma that ends it. */
  lemma ItemReads(top: seq<Token>, i: nat, end: nat, item: Item)
    requires Printable(item)
    requires i + |Top(PrintItem(item))| <= end <= |top| && top[i..i + |Top(PrintItem(item))|] == Top(PrintItem(item))
    requires i + |Top(PrintItem(item))| == end || top[i + |Top(PrintItem(item))|].text == ","
    ensures i < end && NameToken(top[i])
    ensures var name := NameEnd(top, i, end);
            && name + 1 < end && top[name + 1].text == "=" && top[name] == item.path[|item.path| - 1]
            && AfterComma(top, name + 1, end) == i + |Top(PrintItem(item))| + 1
  {
    hide Top, NameToken, PrintPath, PrintItem, Printable, NameEnd, AfterComma;
    PrintableHas(item);
    var printed, path := Top(PrintItem(item)), PrintPath(item.path);
    TopItem(item);
    ThreeSlices(top, i, i + |printed|, path, Punctuation("="), Top(item.value));
    PathReads(top, i, end, item.path);
    assert PathToken(item.path[0]);
    NoCommaIn(top, i + |path| + 1, i + |printed|, Top(item.value));
    ValueSkipped(top, i + |path|, i + |printed|, end);
  }

  lemma TargetsStep(top: seq<Token>, i: nat, end: nat)
    requires i < end <= |top| && NameToken(top[i])
    requires var name := NameEnd(top, i, end); name + 1 < end && top[name + 1].text == "="
    ensures var name := NameEnd(top, i, end);
            Targets(top, i, end) == After([top[name]], Targets(top, AfterComma(top, name + 1, end), end))
    ensures Targets(top, end, end) == Targets(top, end + 1, end) == Some([])
  {
    hide NameToken, NameEnd, AfterComma, After;
  }

  lemma {:induction false} ListReads(top: seq<Token>, i: nat, end: nat, items: seq<Item>)
    requires items != [] && forall k :: 0 <= k < |items| ==> Printable(items[k])
    requires i + |Top(PrintList(items))| == end <= |top| && top[i..end] == Top(PrintList(items))
    ensures Targets(top, i, end) == Some(Columns(items))
    decreases |items|
  {
    hide Top, Printable, NameToken, Targets, NameEnd, AfterComma, PrintItem;
    var first := Top(PrintItem(items[0]));
    if |items| == 1 {
      ItemReads(top, i, end, items[0]);
      TargetsStep(top, i, end);
      assert items[1..] == [];
    } else {
      var rest := Top(PrintList(items[1..]));
      ListTop(items);
      ThreeSlices(top, i, end, first, Punctuation(","), rest);
      ItemReads(top, i, end, items[0]);
      TargetsStep(top, i, end);
      ListReads(top, i + |first| + 1, end, items[1..]);
    }
  }

  lemma ListTop(items: seq<Item>)
    requires |items| > 1 && forall k :: 0 <= k < |items| ==> Printable(items[k])
    ensures Top(PrintList(items)) == Top(PrintItem(items[0])) + [Punctuation(",")] + Top(PrintList(items[1..]))
  {
    hide Printable;
    TopConcat(PrintItem(items[0]) + [Punctuation(",")], PrintList(items[1..]));
    TopConcat(PrintItem(items[0]), [Punctuation(",")]);
    TopIsTop([Punctuation(",")]);
  }

  lemma {:induction false} ListHasNoWhere(items: seq<Item>)
    requires items != [] && forall k :: 0 <= k < |items| ==> Printable(items[k])
    ensures forall i :: 0 <= i < |Top(PrintList(items))| ==> !Top(PrintList(items))[i].Keyword("where")
    decreases |items|
  {
    hide Top, Printable;
    TopItem(items[0]);
    if |items| > 1 {
      ListTop(items);
      ListHasNoWhere(items[1..]);
    }
  }

  lemma {:induction false} FindsAt(top: seq<Token>, word: string, i: nat, j: nat)
    requires i <= j <= |top| && (forall k :: i <= k < j ==> !top[k].Keyword(word))
    requires j == |top| || top[j].Keyword(word)
    ensures FirstKeyword(top, word, i) == j
    decreases j - i
  {
    if i < j {
      FindsAt(top, word, i + 1, j);
    }
  }

  /** Main result: the columns read off a printed UPDATE are the assigned ones, each once, in order of first use. */
  lemma ReadingInvertsPrinting(before: seq<Token>, set_: Token, items: seq<Item>, after: seq<Token>)
    requires items != [] && forall k :: 0 <= k < |items| ==> Printable(items[k])
    requires forall k :: 0 <= k < |before| ==> before[k].depth == 0 ==> !before[k].Keyword("set")
    requires set_.depth == 0 && set_.Keyword("set")
    requires after == [] || (after[0].depth == 0 && after[0].Keyword("where"))
    ensures AssignedColumns(before + [set_] + PrintList(items) + after) == Some(Unique(Columns(items)))
  {
    hide *;
    forall k | 0 <= k < |items| ensures items[k].path != [] {
      HasPath(items[k]);
    }
    var ts := before + [set_] + PrintList(items) + after;
    var b, a := TopParts(before, set_, PrintList(items), after);
    var list := Top(PrintList(items));
    Parts(b, set_, list, a, Top(ts));
    ListHasNoWhere(items);
    ClausesFound(Top(ts), b, list, |b| + 1 + |list|);
    TopReads(Top(ts), |b| + 1, items, |b| + 1 + |list|);
    AssignedFrom(ts, |b| + 1, |b| + 1 + |list|, Columns(items));
  }

  lemma HasPath(item: Item)
    requires Printable(item)
    ensures item.path != []
  {
  }

  lemma Parts(b: seq<Token>, set_: Token, list: seq<Token>, a: seq<Token>, top: seq<Token>)
    requires top == b + [set_] + list + a
    ensures |top| == |b| + 1 + |list| + |a|
    ensures top[..|b|] == b && top[|b|] == set_ && top[|b| + 1..|b| + 1 + |list|] == list
    ensures a != [] ==> top[|b| + 1 + |list|] == a[0]
  {
  }

  /** Where SET and WHERE are found. */
  lemma ClausesFound(top: seq<Token>, b: seq<Token>, list: seq<Token>, end: nat)
    requires end == |b| + 1 + |list| <= |top|
    requires top[..|b|] == b && top[|b|].Keyword("set") && top[|b| + 1..end] == list
    requires forall k :: 0 <= k < |b| ==> !b[k].Keyword("set")
    requires forall k :: 0 <= k < |list| ==> !list[k].Keyword("where")
    requires end == |top| || top[end].Keyword("where")
    ensures FirstKeyword(top, "set", 0) == |b| && FirstKeyword(top, "where", |b| + 1) == end
  {
    hide *;
    FindsFirst(top, "set", 0, b);
    FindsFirst(top, "where", |b| + 1, list);
  }

  lemma TopReads(top: seq<Token>, start: nat, items: seq<Item>, end: nat)
    requires items != [] && forall k :: 0 <= k < |items| ==> Printable(items[k])
    requires start <= end <= |top| && top[start..end] == Top(PrintList(items))
    ensures forall k :: 0 <= k < |items| ==> items[k].path != []
    ensures Targets(top, start, end) == Some(Columns(items))
  {
    hide *;
    forall k | 0 <= k < |items| ensures items[k].path != [] {
      HasPath(items[k]);
    }
    ListReads(top, start, end, items);
  }

  /** The word is found right after a stretch that does not hold it. */
  lemma FindsFirst(top: seq<Token>, word: string, i: nat, stretch: seq<Token>)
    requires i + |stretch| <= |top| && top[i..i + |stretch|] == stretch
    requires forall k :: 0 <= k < |stretch| ==> !stretch[k].Keyword(word)
    requires i + |stretch| == |top| || top[i + |stretch|].Keyword(word)
    ensures FirstKeyword(top, word, i) == i + |stretch|
  {
    hide FirstKeyword, Token.Keyword;
    forall k | i <= k < i + |stretch| ensures !top[k].Keyword(word) {
      assert top[k] == stretch[k - i];
    }
    FindsAt(top, word, i, i + |stretch|);
  }

  lemma AssignedFrom(ts: seq<Token>, start: nat, end: nat, names: seq<Token>)
    requires FirstKeyword(Top(ts), "set", 0) + 1 == start <= |Top(ts)| && FirstKeyword(Top(ts), "where", start) == end
    requires Targets(Top(ts), start, end) == Some(names) && names != []
    ensures AssignedColumns(ts) == Some(Unique(names))
  {
    hide Top, FirstKeyword, Targets, Unique;
  }

  lemma TopParts(before: seq<Token>, set_: Token, list: seq<Token>, after: seq<Token>) returns (b: seq<Token>, a: seq<Token>)
    requires forall k :: 0 <= k < |before| ==> before[k].depth == 0 ==> !before[k].Keyword("set")
    requires set_.depth == 0 && (after == [] || (after[0].depth == 0 && after[0].Keyword("where")))
    ensures Top(before + [set_] + list + after) == b + [set_] + Top(list) + a
    ensures forall k :: 0 <= k < |b| ==> !b[k].Keyword("set")
    ensures a == [] || a[0].Keyword("where")
  {
    hide Token.Keyword;
    TopConcat(before + [set_] + list, after);
    TopConcat(before + [set_], list);
    TopConcat(before, [set_]);
    TopIsTop([set_]);
    TopIsTop(before);
    b, a := Top(before), Top(after);
  }

  /** What Unique keeps: every name, once, and in the order of first occurrence. */
  lemma {:induction false} UniqueKeepsNames(names: seq<Token>)
    ensures forall t :: Listed(names, t) <==> Listed(Unique(names), t)
    ensures forall i, j :: 0 <= i < j < |Unique(names)| ==> Unique(names)[i].lower != Unique(names)[j].lower
    decreases |names|
  {
    if names != [] {
      var front, last := names[..|names| - 1], names[|names| - 1];
      UniqueKeepsNames(front);
      var kept := Unique(names);
      forall t ensures Listed(names, t) <==> Listed(kept, t) {
        assert Listed(names, t) <==> Listed(front, t) || last.lower == t.lower by {
          if Listed(front, t) {
            var i :| 0 <= i < |front| && front[i].lower == t.lower;
            assert names[i].lower == t.lower;
          }
        }
        if Listed(Unique(front), t) {
          var i :| 0 <= i < |Unique(front)| && Unique(front)[i].lower == t.lower;
          assert kept[i].lower == t.lower;
        }
        if last.lower == t.lower && !Listed(Unique(front), last) {
          assert kept[|kept| - 1].lower == t.lower;
        }
      }
    }
  }

  // ------------------------------------------------------------------
  // What the backup reads.

  /** A column of the backup's SELECT: its name, and how the statement spells it. */
  datatype Selected = Selected(name: string, text: string)

  function QuotedKeys(e: Engine, names: seq<string>): (r: seq<Selected>)
    ensures |r| == |names|
  {
    if names == [] then [] else QuotedKeys(e, names[..|names| - 1]) + [Selected(names[|names| - 1], QuoteIdentifier(e, names[|names| - 1]))]
  }

  function AsWritten(names: seq<Token>): seq<Selected> {
    if names == [] then [] else AsWritten(names[..|names| - 1]) + [Selected(names[|names| - 1].lower, names[|names| - 1].text)]
  }

  predicate Taken(key: seq<string>, names: seq<Token>, column: string) {
    Named(key, column) || exists i :: 0 <= i < |names| && ToLower(names[i].lower) == ToLower(column)
  }

  function Refreshed(e: Engine, key: seq<string>, names: seq<Token>, refreshed: seq<string>): seq<Selected> {
    if refreshed == [] then []
    else
      var last := refreshed[|refreshed| - 1];
      Refreshed(e, key, names, refreshed[..|refreshed| - 1])
      + (if Taken(key, names, last) then [] else [Selected(last, QuoteIdentifier(e, last))])
  }

  ghost predicate WritesKey(key: seq<string>, names: seq<Token>) {
    exists i, k :: 0 <= i < |names| && 0 <= k < |key| && ToLower(key[k]) == names[i].lower
  }

  /** None stands for "*": a DELETE, a SET list that cannot be read, or one that writes a key column. */
  ghost function SelectList(e: Engine, kind: WriteKind, ts: seq<Token>, key: seq<string>, refreshed: seq<string>): Option<seq<Selected>> {
    match (kind, AssignedColumns(ts))
    case (UpdateBackup, Some(names)) =>
      if WritesKey(key, names) then None
      else Some(QuotedKeys(e, key) + AsWritten(names) + Refreshed(e, key, names, refreshed))
    case _ => None
  }

  method BackupSelectList(e: Engine, kind: WriteKind, ts: seq<Token>, key: seq<string>, refreshed: seq<string>) returns (r: Option<seq<Selected>>)
    ensures r == SelectList(e, kind, ts, key, refreshed)
  {
    hide AssignedColumns, WritesKey, QuotedKeys, AsWritten, Refreshed;
    if kind != UpdateBackup {
      return None;
    }
    var columns := ReadAssignedColumns(ts);
    if columns.None? {
      return None;
    }
    var keys := QuoteKeys(e, key);
    var written := CopyWritten(key, columns.value);
    if written.None? {
      return None;
    }
    var more := AddRefreshed(e, key, columns.value, refreshed);
    r := Some(keys + written.value + more);
  }

  method QuoteKeys(e: Engine, key: seq<string>) returns (list: seq<Selected>)
    ensures list == QuotedKeys(e, key)
  {
    list := [];
    for i := 0 to |key|
      invariant list == QuotedKeys(e, key[..i])
    {
      assert key[..i + 1][..i] == key[..i];
      list := list + [Selected(key[i], QuoteIdentifier(e, key[i]))];
    }
    assert key[..|key|] == key;
  }

  method CopyWritten(key: seq<string>, names: seq<Token>) returns (r: Option<seq<Selected>>)
    ensures r == if WritesKey(key, names) then None else Some(AsWritten(names))
  {
    hide ToLower;
    var list: seq<Selected> := [];
    for i := 0 to |names|
      invariant list == AsWritten(names[..i])
      invariant forall j, k :: 0 <= j < i && 0 <= k < |key| ==> ToLower(key[k]) != names[j].lower
    {
      assert names[..i + 1][..i] == names[..i];
      if exists k :: 0 <= k < |key| && ToLower(key[k]) == names[i].lower {
        return None;
      }
      list := list + [Selected(names[i].lower, names[i].text)];
    }
    assert names[..|names|] == names;
    r := Some(list);
  }

  method AddRefreshed(e: Engine, key: seq<string>, names: seq<Token>, refreshed: seq<string>) returns (list: seq<Selected>)
    ensures list == Refreshed(e, key, names, refreshed)
  {
    hide Taken, QuoteIdentifier;
    list := [];
    for i := 0 to |refreshed|
      invariant list == Refreshed(e, key, names, refreshed[..i])
    {
      assert refreshed[..i + 1][..i] == refreshed[..i];
      if !Taken(key, names, refreshed[i]) {
        list := list + [Selected(refreshed[i], QuoteIdentifier(e, refreshed[i]))];
      }
    }
    assert refreshed[..|refreshed|] == refreshed;
  }

  // ------------------------------------------------------------------
  // What the restore then writes.

  ghost predicate SelectsName(list: seq<Selected>, c: string) {
    exists i :: 0 <= i < |list| && ToLower(list[i].name) == c
  }

  ghost predicate Assigns(names: seq<Token>, c: string) {
    exists i :: 0 <= i < |names| && ToLower(names[i].lower) == c
  }

  lemma {:induction false} SelectedParts(e: Engine, key: seq<string>, names: seq<Token>, refreshed: seq<string>, c: string)
    ensures SelectsName(QuotedKeys(e, key), c) <==> c in LowerSet(key)
    ensures SelectsName(AsWritten(names), c) <==> Assigns(names, c)
    ensures SelectsName(Refreshed(e, key, names, refreshed), c)
       <==> c in LowerSet(refreshed) && c !in LowerSet(key) && !Assigns(names, c)
    decreases |key| + |names| + |refreshed|
  {
    hide ToLower, QuoteIdentifier, Taken;
    if key != [] {
      KeyPart(e, key, c);
    }
    if names != [] {
      WrittenPart(names, c);
    }
    RefreshedPart(e, key, names, refreshed, c);
  }

  lemma SelectsConcat(a: seq<Selected>, b: seq<Selected>, c: string)
    ensures SelectsName(a + b, c) <==> SelectsName(a, c) || SelectsName(b, c)
  {
    hide ToLower;
    if SelectsName(a, c) {
      var i :| 0 <= i < |a| && ToLower(a[i].name) == c;
      assert (a + b)[i] == a[i];
    }
    if SelectsName(b, c) {
      var i :| 0 <= i < |b| && ToLower(b[i].name) == c;
      assert (a + b)[|a| + i] == b[i];
    }
  }

  lemma SelectsOne(x: Selected, c: string)
    ensures SelectsName([x], c) <==> ToLower(x.name) == c
  {
    assert [x][0] == x;
  }

  lemma {:induction false} KeyPart(e: Engine, key: seq<string>, c: string)
    ensures SelectsName(QuotedKeys(e, key), c) <==> c in LowerSet(key)
    decreases |key|
  {
    hide ToLower, QuoteIdentifier;
    if key != [] {
      var front, last := key[..|key| - 1], key[|key| - 1];
      KeyPart(e, front, c);
      SelectsConcat(QuotedKeys(e, front), [Selected(last, QuoteIdentifier(e, last))], c);
      SelectsOne(Selected(last, QuoteIdentifier(e, last)), c);
      LowerSetLast(key, c);
    }
  }

  lemma LowerSetLast(names: seq<string>, c: string)
    requires names != []
    ensures c in LowerSet(names) <==> c in LowerSet(names[..|names| - 1]) || ToLower(names[|names| - 1]) == c
  {
    hide ToLower;
    var front := names[..|names| - 1];
    if c in LowerSet(front) {
      var i :| 0 <= i < |front| && ToLower(front[i]) == c;
      assert names[i] == front[i];
    }
    if c in LowerSet(names) && ToLower(names[|names| - 1]) != c {
      var i :| 0 <= i < |names| && ToLower(names[i]) == c;
      assert front[i] == names[i];
    }
  }

  lemma {:induction false} WrittenPart(names: seq<Token>, c: string)
    ensures SelectsName(AsWritten(names), c) <==> Assigns(names, c)
    decreases |names|
  {
    hide ToLower;
    if names != [] {
      var front, last := names[..|names| - 1], names[|names| - 1];
      WrittenPart(front, c);
      SelectsConcat(AsWritten(front), [Selected(last.lower, last.text)], c);
      SelectsOne(Selected(last.lower, last.text), c);
      assert Assigns(names, c) <==> Assigns(front, c) || ToLower(last.lower) == c by {
        if Assigns(front, c) {
          var i :| 0 <= i < |front| && ToLower(front[i].lower) == c;
          assert names[i] == front[i];
        }
      }
    }
  }

  lemma {:induction false} RefreshedPart(e: Engine, key: seq<string>, names: seq<Token>, refreshed: seq<string>, c: string)
    ensures SelectsName(Refreshed(e, key, names, refreshed), c)
       <==> c in LowerSet(refreshed) && c !in LowerSet(key) && !Assigns(names, c)
    decreases |refreshed|
  {
    hide ToLower, QuoteIdentifier;
    if refreshed != [] {
      var front, last := refreshed[..|refreshed| - 1], refreshed[|refreshed| - 1];
      RefreshedPart(e, key, names, front, c);
      LowerSetLast(refreshed, c);
      NamedInSet(key, last);
      var one := if Taken(key, names, last) then [] else [Selected(last, QuoteIdentifier(e, last))];
      SelectsConcat(Refreshed(e, key, names, front), one, c);
      SelectsOne(Selected(last, QuoteIdentifier(e, last)), c);
      assert Taken(key, names, last) <==> ToLower(last) in LowerSet(key) || Assigns(names, ToLower(last));
    }
  }

  /** The columns as the database reports them: those of the select list, each in a spelling of its own. */
  ghost predicate ReportedAs(columns: seq<string>, list: seq<Selected>) {
    |columns| == |list| && forall i :: 0 <= i < |list| ==> ToLower(columns[i]) == ToLower(list[i].name)
  }

  /** A backup that reads the select list is restored by writing exactly the assigned and the
      engine-refreshed columns: none of the key, and nothing else of the row. */
  lemma RestoreWritesWhatTheStatementWrote(e: Engine, sc: Schema, p: Payload, names: seq<Token>, refreshed: seq<string>)
    requires ReportedAs(p.columns, QuotedKeys(e, p.key) + AsWritten(names) + Refreshed(e, p.key, names, refreshed))
    requires sc.key == LowerSet(p.key)
    requires forall c :: c in sc.key || Assigns(names, c) || c in LowerSet(refreshed) ==> c !in LowerSet(p.generated)
    ensures forall c :: c in WrittenBack(sc, p) <==>
              c !in sc.key && c !in sc.identity && (Assigns(names, c) || c in LowerSet(refreshed))
  {
    hide ToLower, LowerSet, QuotedKeys, AsWritten, Refreshed, Assigns;
    var list := QuotedKeys(e, p.key) + AsWritten(names) + Refreshed(e, p.key, names, refreshed);
    forall c ensures SelectsName(list, c) <==> c in sc.key || Assigns(names, c) || c in LowerSet(refreshed) {
      SelectsConcat(QuotedKeys(e, p.key) + AsWritten(names), Refreshed(e, p.key, names, refreshed), c);
      SelectsConcat(QuotedKeys(e, p.key), AsWritten(names), c);
      SelectedParts(e, p.key, names, refreshed, c);
    }
    forall c ensures c in Captured(p) <==> SelectsName(list, c) {
      if SelectsName(list, c) {
        var i :| 0 <= i < |list| && ToLower(list[i].name) == c;
        NamedInSet(p.generated, p.columns[i]);
        assert ToLower(p.columns[i]) == c && !Named(p.generated, p.columns[i]);
      }
    }
  }

  /** What an UPDATE with this SET list does to a row: only what it assigns and what the engine refreshes may change. */
  ghost predicate ChangesOnly(names: seq<Token>, refreshed: seq<string>, was: Row, now: Row) {
    now.Keys == was.Keys && forall c :: c in was && !Assigns(names, c) && c !in LowerSet(refreshed) ==> now[c] == was[c]
  }

  /** Main result, from the statement to the restored table: an UPDATE whose SET list can be read and names no key
      and no identity column is undone exactly by the plan of the backup that its own select list captured. */
  lemma StatementIsUndone(sc: Schema, e: Engine, item: RowBackup.Item, p: Payload, ts: seq<Token>, names: seq<Token>, refreshed: seq<string>,
                          refuses: Statement -> bool, before: set<Row>, selected: seq<Row>, after: set<Row>, effect: Row -> Row)
    requires AssignedColumns(ts) == Some(names) && names != [] && item.kind == UpdateBackup
    requires var list := SelectList(e, UpdateBackup, ts, p.key, refreshed); list.Some? && ReportedAs(p.columns, list.value)
    requires sc.key != {} && forall c :: c in sc.key || Assigns(names, c) || c in LowerSet(refreshed) ==> c !in LowerSet(p.generated)
    requires forall c :: Assigns(names, c) || c in LowerSet(refreshed) ==> c !in sc.key && c !in sc.identity
    requires Captures(sc, p, selected) && Updated(sc, before, selected, after)
    requires forall i :: 0 <= i < |selected| ==> effect(selected[i]) in after && ChangesOnly(names, refreshed, selected[i], effect(selected[i]))
    requires Willing(PlanOf(e, item, p).statements, refuses)
    ensures ExecuteAll(sc, refuses, after, PlanOf(e, item, p).statements) == Done(before)
  {
    hide ExecuteAll, Updates, Updated, LowerSet, Assigns, ToLower, WritesKey, ProbesOf, QuotedKeys, AsWritten, Refreshed, RestoreExact.Reads;
    assert sc.key == LowerSet(p.key);
    RestoreWritesWhatTheStatementWrote(e, sc, p, names, refreshed);
    FirstIsAssigned(names);
    assert ToLower(names[0].lower) in WrittenBack(sc, p);
    forall i | 0 <= i < |selected|
      ensures KeyOf(sc, effect(selected[i])) == KeyOf(sc, selected[i])
      ensures PutBack(WrittenBack(sc, p), selected[i], effect(selected[i])) == selected[i]
    {
      KeptAndPutBack(sc, p, names, refreshed, selected[i], effect(selected[i]));
    }
    KeyKeepingRestoreIsExact(sc, e, p, refuses, before, selected, after, effect);
  }

  lemma FirstIsAssigned(names: seq<Token>)
    requires names != []
    ensures Assigns(names, ToLower(names[0].lower))
  {
  }

  lemma KeptAndPutBack(sc: Schema, p: Payload, names: seq<Token>, refreshed: seq<string>, was: Row, now: Row)
    requires ChangesOnly(names, refreshed, was, now)
    requires forall c :: Assigns(names, c) || c in LowerSet(refreshed) ==> c !in sc.key && c !in sc.identity
    requires forall c :: c in WrittenBack(sc, p) <==> c !in sc.key && c !in sc.identity && (Assigns(names, c) || c in LowerSet(refreshed))
    ensures KeyOf(sc, now) == KeyOf(sc, was) && PutBack(WrittenBack(sc, p), was, now) == was
  {
    hide LowerSet, Assigns, WrittenBack;
  }

  /** What the backup reads: the select list, or all of the table's columns when the list is "*". */
  ghost predicate ColumnsRead(columns: seq<string>, list: Option<seq<Selected>>, all: seq<string>) {
    if list.Some? then ReportedAs(columns, list.value) else columns == all
  }

  /** These are the table's columns, generated ones included. */
  ghost predicate AllColumns(sc: Schema, all: seq<string>, generated: seq<string>) {
    forall c :: c in sc.columns <==> c in LowerSet(all) && c !in LowerSet(generated)
  }

  lemma StarReadsAll(sc: Schema, p: Payload)
    requires AllColumns(sc, p.columns, p.generated)
    ensures Captured(p) == sc.columns
  {
    hide ToLower, LowerSet;
    forall c ensures c in Captured(p) <==> c in LowerSet(p.columns) && c !in LowerSet(p.generated) {
      if c in LowerSet(p.columns) && c !in LowerSet(p.generated) {
        CapturedAt(p, c);
      }
      if c in Captured(p) {
        var i :| 0 <= i < |p.columns| && !Named(p.generated, p.columns[i]) && ToLower(p.columns[i]) == c;
        NamedInSet(p.generated, p.columns[i]);
        NamedInSet(p.columns, p.columns[i]);
        assert Named(p.columns, p.columns[i]) by { IsNamed(p.columns, i); }
      }
    }
  }

  lemma IsNamed(names: seq<string>, i: nat)
    requires i < |names|
    ensures Named(names, names[i])
  {
    assert ToLower(names[i]) in LowerSet(names);
    NamedInSet(names, names[i]);
  }

  lemma CapturedAt(p: Payload, c: string)
    requires c in LowerSet(p.columns) && c !in LowerSet(p.generated)
    ensures c in Captured(p)
  {
    hide ToLower;
    var i :| 0 <= i < |p.columns| && ToLower(p.columns[i]) == c;
    NamedInSet(p.generated, p.columns[i]);
  }

  /** Main result for every other UPDATE: when the SET list cannot be read, or writes a key column, the backup reads whole rows, and
      its plan aborts, or restores the original table exactly when the identity columns outside the key agree under each old key. */
  lemma OtherStatementsAreExactOrNothing(sc: Schema, e: Engine, item: RowBackup.Item, p: Payload, all: seq<string>, ts: seq<Token>, refreshed: seq<string>,
                                         refuses: Statement -> bool, before: set<Row>, selected: seq<Row>, after: set<Row>)
    requires item.kind == UpdateBackup && (AssignedColumns(ts).Some? ==> WritesKey(p.key, AssignedColumns(ts).value))
    requires ColumnsRead(p.columns, SelectList(e, UpdateBackup, ts, p.key, refreshed), all) && AllColumns(sc, all, p.generated)
    requires sc.key != {} && !(sc.columns <= sc.key + sc.identity)
    requires Captures(sc, p, selected) && Updated(sc, before, selected, after)
    ensures var outcome := ExecuteAll(sc, refuses, after, PlanOf(e, item, p).statements);
            outcome.Aborted? || (outcome == Done(before) <==> IdentityAgrees(sc, selected, after))
  {
    hide ExecuteAll, Updates, Captured, Updated, ProbesOf, IdentityAgrees, WritesKey, AssignedColumns, AllColumns, RestoreExact.Reads, KeyOf;
    StarReadsAll(sc, p);
    var c :| c in sc.columns && c !in sc.key + sc.identity;
    assert c in WrittenBack(sc, p);
    WholeRowRestoreExactly(sc, e, p, refuses, before, selected, after);
  }
}
