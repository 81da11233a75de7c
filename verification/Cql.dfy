/** Reading CQL: one statement, or a batch whose children are read one by one and
    folded into the strictest of them. */
module Cql {
  import opened Prelude
  import opened Bytes
  import opened Lexer
  import opened Splitter
  import opened Folder
  import opened Classifier
  import opened Script
  import opened Policy

  datatype CqlError = Unclassifiable | NotOneStatement | MissingApply | NoStatements | UnsupportedStatement

  type CqlResult = Result<Info, CqlError>

  // ------------------------------------------------------------------
  // What a text is.

  /** Index of BATCH after BEGIN, or None. */
  function BatchWord(ts: seq<Token>): Option<nat> {
    var b := if |ts| > 1 && (ts[1].lower == "unlogged" || ts[1].lower == "counter") then 2 else 1;
    if b < |ts| && ts[b].lower == "batch" then Some(b) else None
  }

  predicate Applies(ts: seq<Token>, i: nat) {
    i + 1 < |ts| && ts[i].lower == "apply" && ts[i + 1].lower == "batch"
  }

  /** The first APPLY BATCH at or after i, or |ts|. */
  function ApplyAt(ts: seq<Token>, i: nat): (a: nat)
    ensures a <= |ts| && (a < |ts| ==> i <= a && Applies(ts, a))
    decreases |ts| - i
  {
    if i >= |ts| then |ts| else if Applies(ts, i) then i else ApplyAt(ts, i + 1)
  }

  datatype Shape = Plain | BeginOnly | NoApply | Batch(body: string)

  function ShapeOf(raw: string, ts: seq<Token>): Shape
    requires ts != []
  {
    if ts[0].lower != "begin" then Plain
    else
      match BatchWord(ts)
      case None => BeginOnly
      case Some(b) =>
        var a := ApplyAt(ts, b + 1);
        if a == |ts| then NoApply else Batch(Text(raw, ts[b].end, ts[a].start))
  }

  // ------------------------------------------------------------------
  // What it is read as.

  function ReadAlone(info: Info): CqlResult {
    if info.kind == Unrecognised && !info.isScript then Err(Unclassifiable) else Ok(info)
  }

  function ReadPlain(info: Info): CqlResult {
    if info.isScript then Err(NotOneStatement) else ReadAlone(info)
  }

  function EmptyBatch(raw: string): Info {
    Blank(Generic, raw).(kind := Insert, command := Insert, hasWhere := true)
  }

  predicate Writes(k: Kind) {
    k == Insert || k == Update || k == Delete
  }

  /** One child folded in: DELETE outranks UPDATE outranks INSERT, and one unscoped child unscopes the batch. */
  function FoldChild(result: Info, child: Info): Info {
    var kind := if child.kind == Delete then Delete else if child.kind == Update && result.kind != Delete then Update else result.kind;
    result.(tables := result.tables + child.tables,
            hasWhere := result.hasWhere && !((child.kind == Update || child.kind == Delete) && !child.hasWhere),
            kind := kind,
            command := kind)
  }

  function FoldChildren(result: Info, children: seq<Info>): CqlResult
    decreases |children|
  {
    if children == [] then Ok(result)
    else if !Writes(children[0].kind) then Err(UnsupportedStatement)
    else FoldChildren(FoldChild(result, children[0]), children[1..])
  }

  ghost predicate ParsedAll(number: Numbers, texts: seq<string>, infos: seq<Info>) {
    |infos| == |texts| && forall i :: 0 <= i < |texts| ==> ParsedAs(number, Generic, texts[i], infos[i])
  }

  ghost predicate ReadsBatch(number: Numbers, raw: string, body: string, r: CqlResult) {
    var children := Split(Generic, body);
    if children.Err? || children.value == [] then r == Err(NoStatements)
    else exists infos :: ParsedAll(number, children.value, infos) && r == FoldChildren(EmptyBatch(raw), infos)
  }

  ghost predicate ReadsCql(number: Numbers, cql: string, r: CqlResult) {
    var raw := TrimSpace(cql);
    var lexed := Lex(Generic, raw);
    if lexed.Err? || lexed.value == [] then r == Err(Unclassifiable)
    else ReadsShape(number, raw, ShapeOf(raw, lexed.value), r)
  }

  ghost predicate ReadsShape(number: Numbers, raw: string, shape: Shape, r: CqlResult) {
    match shape
    case Plain => exists info :: ParsedAs(number, Generic, raw, info) && r == ReadPlain(info)
    case BeginOnly => exists info :: ParsedAs(number, Generic, raw, info) && r == ReadAlone(info)
    case NoApply => r == Err(MissingApply)
    case Batch(body) => ReadsBatch(number, raw, body, r)
  }

  // ------------------------------------------------------------------
  // The program.

  method FindApply(ts: seq<Token>, from: nat) returns (apply: nat)
    ensures apply == ApplyAt(ts, from)
  {
    apply := from;
    while apply + 1 < |ts|
      invariant ApplyAt(ts, apply) == ApplyAt(ts, from)
    {
      if ts[apply].lower == "apply" && ts[apply + 1].lower == "batch" {
        return;
      }
      apply := apply + 1;
    }
    apply := |ts|;
  }

  method FoldBatch(number: Numbers, raw: string, children: seq<string>) returns (r: CqlResult)
    ensures exists infos :: ParsedAll(number, children, infos) && r == FoldChildren(EmptyBatch(raw), infos)
  {
    hide ParsedAs, FoldChild;
    var infos: seq<Info> := [];
    for i := 0 to |children|
      invariant |infos| == i && forall k :: 0 <= k < i ==> ParsedAs(number, Generic, children[k], infos[k])
    {
      var info := ParseOne(number, children[i]);
      infos := infos + [info];
    }
    var result := EmptyBatch(raw);
    r := Ok(result);
    for i := 0 to |infos|
      invariant r == Ok(result)
      invariant FoldChildren(EmptyBatch(raw), infos) == FoldChildren(result, infos[i..])
    {
      assert infos[i..][0] == infos[i] && infos[i..][1..] == infos[i + 1..];
      if !Writes(infos[i].kind) {
        r := Err(UnsupportedStatement);
        assert ParsedAll(number, children, infos);
        return;
      }
      result := FoldChild(result, infos[i]);
      r := Ok(result);
    }
    assert infos[|infos|..] == [];
    assert ParsedAll(number, children, infos);
  }

  method ParseOne(number: Numbers, sql: string) returns (info: Info)
    ensures ParsedAs(number, Generic, sql, info)
  {
    hide Split, Classify, Parts, Merges;
    info := ParseUncached(number, Generic, sql);
  }

  method ParseCQL(number: Numbers, cql: string) returns (r: CqlResult)
    ensures ReadsCql(number, cql, r)
  {
    hide Split, Classify, ParsedAs, ParsedAll, Lex, TrimSpace, FoldChildren, Text;
    var raw := TrimSpace(cql);
    var lexed := LexDialect(Generic, raw);
    if lexed.Err? || lexed.value == [] {
      return Err(Unclassifiable);
    }
    var ts := lexed.value;
    var shape := ShapeOf(raw, ts);
    if ts[0].lower != "begin" {
      var info := ParseOne(number, raw);
      return ReadPlain(info);
    }
    var word := BatchWord(ts);
    if word.None? {
      var info := ParseOne(number, raw);
      return ReadAlone(info);
    }
    var apply := FindApply(ts, word.value + 1);
    if apply == |ts| {
      return Err(MissingApply);
    }
    var body := Text(raw, ts[word.value].end, ts[apply].start);
    var children := SplitStatements(Generic, body);
    if children.Err? || children.value == [] {
      return Err(NoStatements);
    }
    r := FoldBatch(number, raw, children.value);
  }

  // ------------------------------------------------------------------
  // What a batch is read as.

  ghost predicate SomeChild(children: seq<Info>, kind: Kind) {
    exists i :: 0 <= i < |children| && children[i].kind == kind
  }

  ghost predicate AllScoped(children: seq<Info>) {
    forall i :: 0 <= i < |children| && (children[i].kind == Update || children[i].kind == Delete) ==> children[i].hasWhere
  }

  lemma ChildFirst(children: seq<Info>, kind: Kind)
    requires children != []
    ensures SomeChild(children, kind) <==> children[0].kind == kind || SomeChild(children[1..], kind)
  {
    if SomeChild(children, kind) && children[0].kind != kind {
      var i :| 0 <= i < |children| && children[i].kind == kind;
      assert children[1..][i - 1].kind == kind;
    }
  }

  lemma ScopedFirst(children: seq<Info>)
    requires children != []
    ensures AllScoped(children) <==> (children[0].kind == Update || children[0].kind == Delete ==> children[0].hasWhere) && AllScoped(children[1..])
  {
    if AllScoped(children[1..]) && (children[0].kind == Update || children[0].kind == Delete ==> children[0].hasWhere) {
      forall i | 0 <= i < |children| && (children[i].kind == Update || children[i].kind == Delete) ensures children[i].hasWhere {
        assert i > 0 ==> children[i] == children[1..][i - 1];
      }
    }
  }

  lemma {:induction false} FoldedKind(result: Info, children: seq<Info>)
    requires result.kind == Insert || result.kind == Update || result.kind == Delete
    requires FoldChildren(result, children).Ok?
    ensures var r := FoldChildren(result, children).value;
            && r.kind == (if result.kind == Delete || SomeChild(children, Delete) then Delete
                          else if result.kind == Update || SomeChild(children, Update) then Update
                          else Insert)
            && (r.hasWhere <==> result.hasWhere && AllScoped(children))
    decreases |children|
  {
    hide SomeChild, AllScoped;
    if children == [] {
      NoChildren();
    } else {
      ChildFirst(children, Delete);
      ChildFirst(children, Update);
      ScopedFirst(children);
      FoldedKind(FoldChild(result, children[0]), children[1..]);
    }
  }

  lemma NoChildren()
    ensures !SomeChild([], Delete) && !SomeChild([], Update) && AllScoped([])
  {
  }

  /** A batch is as strict as its strictest statement: DELETE before UPDATE before INSERT, and without a WHERE as soon as one
      UPDATE or DELETE in it has none. */
  lemma BatchIsItsStrictest(raw: string, children: seq<Info>)
    requires FoldChildren(EmptyBatch(raw), children).Ok?
    ensures var r := FoldChildren(EmptyBatch(raw), children).value;
            && r.kind == (if SomeChild(children, Delete) then Delete else if SomeChild(children, Update) then Update else Insert)
            && (r.hasWhere <==> AllScoped(children))
  {
    hide SomeChild, AllScoped;
    FoldedKind(EmptyBatch(raw), children);
  }

  // ------------------------------------------------------------------
  // Which texts are batches.

  /** BEGIN BATCH, BEGIN UNLOGGED BATCH or BEGIN COUNTER BATCH; b is where BATCH stands. */
  predicate BatchAt(ts: seq<Token>, b: nat) {
    && b < |ts| && ts[0].lower == "begin" && ts[b].lower == "batch"
    && (b == 1 || (b == 2 && (ts[1].lower == "unlogged" || ts[1].lower == "counter")))
  }

  predicate ApplyHere(ts: seq<Token>, a: int) {
    0 <= a && a + 1 < |ts| && ts[a].lower == "apply" && ts[a + 1].lower == "batch"
  }

  lemma {:induction false} ApplySearched(ts: seq<Token>, i: nat)
    ensures var a := ApplyAt(ts, i);
            if a < |ts| then i <= a && ApplyHere(ts, a) && forall j :: i <= j < a ==> !ApplyHere(ts, j)
            else forall j :: i <= j ==> !ApplyHere(ts, j)
    decreases |ts| - i
  {
    if i < |ts| && !Applies(ts, i) {
      ApplySearched(ts, i + 1);
    }
  }

  lemma BatchFound(ts: seq<Token>, b: nat)
    requires BatchAt(ts, b)
    ensures ts[0].lower == "begin" && b < |ts| && BatchWord(ts) == Some(b)
  {
  }

  lemma BatchShape(raw: string, ts: seq<Token>, b: nat)
    requires ts != [] && ts[0].lower == "begin" && BatchWord(ts) == Some(b) && b < |ts|
    ensures var a := ApplyAt(ts, b + 1); ShapeOf(raw, ts) == if a == |ts| then NoApply else Batch(Text(raw, ts[b].end, ts[a].start))
  {
    hide BatchWord, ApplyAt, Text;
  }

  /** A text that begins a batch is one, and its statements stand between BATCH and the first APPLY BATCH after it. */
  lemma BatchByWords(raw: string, ts: seq<Token>, b: nat, a: nat)
    requires ts != [] && BatchAt(ts, b) && b < a && ApplyHere(ts, a) && forall j :: b < j < a ==> !ApplyHere(ts, j)
    ensures a < |ts| && ShapeOf(raw, ts) == Batch(Text(raw, ts[b].end, ts[a].start))
  {
    hide *;
    BatchFound(ts, b);
    BatchShape(raw, ts, b);
    ApplySearched(ts, b + 1);
    ApplyInside(ts, a);
  }

  lemma UnappliedBatch(raw: string, ts: seq<Token>, b: nat)
    requires ts != [] && BatchAt(ts, b) && forall a :: b < a ==> !ApplyHere(ts, a)
    ensures ShapeOf(raw, ts) == NoApply
  {
    hide *;
    BatchFound(ts, b);
    BatchShape(raw, ts, b);
    ApplySearched(ts, b + 1);
  }

  lemma ApplyInside(ts: seq<Token>, a: int)
    requires ApplyHere(ts, a)
    ensures 0 <= a < |ts|
  {
  }

  /** Everything else is read as one statement. */
  lemma OthersArePlain(raw: string, ts: seq<Token>)
    requires ts != [] && forall b :: !BatchAt(ts, b)
    ensures ShapeOf(raw, ts) == if ts[0].lower == "begin" then BeginOnly else Plain
  {
    assert !BatchAt(ts, 1) && !BatchAt(ts, 2);
  }
}
