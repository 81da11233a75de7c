/** Reading a stored value back from the literal an undo statement writes for it, as each engine reads it. */
module Literals {
  import opened Prelude
  import opened Render
  import opened RowBackup
  import opened RestoreText

  /** The text in a quoted literal: a doubled quote is one, and a doubled backslash where backslashes escape. */
  function Unescape(body: string, backslashes: bool): string {
    if body == "" then ""
    else if |body| > 1 && body[0] == body[1] && (body[0] == '\'' || (body[0] == '\\' && backslashes)) then [body[0]] + Unescape(body[2..], backslashes)
    else [body[0]] + Unescape(body[1..], backslashes)
  }

  /** What stands between two ends of a text. */
  function Between(text: string, open: string, close: string): Option<string> {
    if |open| + |close| <= |text| && text[..|open|] == open && text[|text| - |close|..] == close
    then Some(text[|open|..|text| - |close|])
    else None
  }

  function ReadText(text: string, open: string, backslashes: bool): Option<string> {
    match Between(text, open, "'")
    case None => None
    case Some(body) => Some(Unescape(body, backslashes))
  }

  function ReadBlob(e: Engine, text: string): Option<string> {
    match e
    case MySQLEngine => Between(text, "X'", "'")
    case MariaDB => Between(text, "X'", "'")
    case SQLite => Between(text, "X'", "'")
    case MSSQLEngine => Between(text, "0x", "")
    case SQLServer => Between(text, "0x", "")
    case DuckDB => Between(text, "unhex('", "')")
    case PostgresEngine => Between(text, "'\\x", "'::bytea")
    case CockroachDB => Between(text, "'\\x", "'::bytea")
    case _ => Between(text, "'\\x", "'")
  }

  /** The engines with a boolean type of their own. */
  predicate HasBooleans(e: Engine) {
    e == PostgresEngine || e == PostgreSQL || e == CockroachDB || e == DuckDB
  }

  /** The stored text of a literal, when its column holds values of this kind. */
  function ReadLiteral(e: Engine, kind: ValueKind, text: string): Option<string> {
    match kind
    case Null => if text == "NULL" then Some("") else None
    case Bool =>
      if text == (if HasBooleans(e) then "TRUE" else "1") then Some("true")
      else if text == (if HasBooleans(e) then "FALSE" else "0") then Some("false")
      else None
    case Num => Some(text)
    case Blob => ReadBlob(e, text)
    case _ => ReadText(text, if e == MSSQLEngine || e == SQLServer then "N'" else "'", e == MySQLEngine || e == MariaDB)
  }

  lemma {:induction false} UnescapeBody(value: string, backslashes: bool)
    ensures Unescape(LiteralBody(value, backslashes), backslashes) == value
    decreases |value|
  {
    if value != "" {
      UnescapeBody(value[1..], backslashes);
      var more, body := LiteralBody(value[1..], backslashes), LiteralBody(value, backslashes);
      if value[0] == '\'' || (value[0] == '\\' && backslashes) {
        assert body[0] == body[1] == value[0] && body[2..] == more;
      } else {
        assert body[0] == value[0] && body[1..] == more;
      }
      assert value == [value[0]] + value[1..];
    }
  }

  lemma BetweenEnds(open: string, inner: string, close: string)
    ensures Between(open + inner + close, open, close) == Some(inner)
  {
    var text := open + inner + close;
    assert text[..|open|] == open && text[|text| - |close|..] == close && text[|open|..|text| - |close|] == inner;
  }

  lemma TextReadsBack(e: Engine, value: string)
    ensures ReadText(ImportLiteral(e, value), if e == MSSQLEngine || e == SQLServer then "N'" else "'", e == MySQLEngine || e == MariaDB) == Some(value)
  {
    hide Unescape, Between, LiteralBody, Double;
    var backslashes := e == MySQLEngine || e == MariaDB;
    EscapesTwice(value);
    UnescapeBody(value, backslashes);
    BetweenEnds("N'", LiteralBody(value, backslashes), "'");
    BetweenEnds("'", LiteralBody(value, backslashes), "'");
  }

  lemma BlobReadsBack(e: Engine, v: BackupValue)
    requires v.kind == Blob
    ensures ReadBlob(e, RestoreLiteral(e, v)) == Some(v.text)
  {
    hide Between;
    BetweenEnds("X'", v.text, "'");
    BetweenEnds("0x", v.text, "");
    BetweenEnds("unhex('", v.text, "')");
    BetweenEnds("'\\x", v.text, "'::bytea");
    BetweenEnds("'\\x", v.text, "'");
    assert "0x" + v.text + "" == "0x" + v.text;
    assert "'\\x" + v.text + "'" + "::bytea" == "'\\x" + v.text + "'::bytea";
  }

  /** Main result: the literal written for a stored value is read by its engine as that value. */
  lemma LiteralReadsBack(e: Engine, v: BackupValue)
    requires v.kind == Bool ==> v.text == "true" || v.text == "false"
    requires v.kind == Null ==> v.text == ""
    ensures ReadLiteral(e, v.kind, RestoreLiteral(e, v)) == Some(v.text)
  {
    hide ImportLiteral, ReadText, ReadBlob, HexLiteral;
    if v.kind == Bool {
      assert ToUpper("true") == "TRUE" && ToUpper("false") == "FALSE";
    }
    TextReadsBack(e, v.text);
    if v.kind == Blob {
      BlobReadsBack(e, v);
    }
  }

  /** A stored value keeps its type on SQL Server exactly when its column is a variant, and what is cast is its literal. */
  lemma VariantsAreCast(e: Engine, p: Payload, row: seq<BackupValue>, i: nat)
    requires i < |row| && e != Cassandra
    ensures var text := CellText(e, CellAt(e, p, row, i));
            if (e == MSSQLEngine || e == SQLServer) && row[i].kind != Null && i < |p.types| && p.types[i] == "SQL_VARIANT"
            then Between(text, "CAST(", " AS sql_variant)") == Some(RestoreLiteral(e, row[i]))
            else text == RestoreLiteral(e, row[i])
  {
    hide Between, RestoreLiteral;
    BetweenEnds("CAST(", RestoreLiteral(e, row[i]), " AS sql_variant)");
  }
}
