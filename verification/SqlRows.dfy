/** The text of a many-row INSERT, as comit/modle/groupmessage.go and logic/models/groupchat.go
    build it row by row, and the reading of it by a database. */
module SqlRows {
  import opened Decimal

  type Row = (nat, nat)

  function RowText(r: Row): string {
    ("(" + Print(r.0)) + (("," + Print(r.1)) + ")")
  }

  /** The rows, a comma between two of them and a semicolon after the last. */
  function RowsText(rows: seq<Row>): string {
    if rows == [] then ""
    else RowText(rows[0]) + if |rows| == 1 then ";" else "," + RowsText(rows[1..])
  }

  lemma RowsTextStep(sql: string, rows: seq<Row>, i: nat)
    requires i < |rows|
    ensures sql + RowsText(rows[i..]) == sql + (RowText(rows[i]) + (if i < |rows| - 1 then "," else ";")) + RowsText(rows[i + 1..])
  {
    assert rows[i..][1..] == rows[i + 1..];
  }

  /** The loop that appends the rows to the head of the statement. */
  method BuildInsert(head: string, rows: seq<Row>) returns (sql: string)
    ensures sql == head + RowsText(rows)
  {
    sql := head;
    var index := 0;
    while index < |rows|
      invariant 0 <= index <= |rows|
      invariant sql + RowsText(rows[index..]) == head + RowsText(rows)
    {
      var v := rows[index];
      RowsTextStep(sql, rows, index);
      if index < |rows| - 1 {
        sql := sql + (RowText(v) + ",");
      } else {
        sql := sql + (RowText(v) + ";");
      }
      index := index + 1;
    }
  }

  /** A row to the letter: the columns in the order of the head. */
  lemma RowToTheLetter()
    ensures RowText((12, 5)) == "(12,5)"
  {
    assert Print(12) == "12" && Print(5) == "5";
  }

  /** Two rows: a comma between them, one semicolon at the end. */
  lemma TwoRows(r: Row, s: Row)
    ensures RowsText([r, s]) == RowText(r) + ("," + (RowText(s) + ";"))
  {
    assert [r, s][1..] == [s];
  }

  // ---------- reading the text ----------

  datatype Option<T> = None | Some(value: T)

  /** Length of the run of digits at the start of `s`. */
  function DigitRun(s: string): (n: nat)
    ensures n <= |s| && AllDigits(s[..n])
  {
    if s == "" || !IsDigit(s[0]) then 0 else 1 + DigitRun(s[1..])
  }

  /** `s` without its first character, if that is `c`. */
  function Expect(s: string, c: char): Option<string> {
    if s != "" && s[0] == c then Some(s[1..]) else None
  }

  /** A number and what follows it. */
  function ReadNumber(s: string): Option<(nat, string)> {
    var n := DigitRun(s);
    if n == 0 then None else Some((Value(s[..n]), s[n..]))
  }

  /** A number behind the character `c`, and what follows it. */
  function ReadField(s: string, c: char): Option<(nat, string)> {
    match Expect(s, c)
    case None => None
    case Some(t) => ReadNumber(t)
  }

  /** A row and what follows it. */
  function ReadRow(s: string): Option<(Row, string)> {
    match ReadField(s, '(')
    case None => None
    case Some((a, t)) =>
      match ReadField(t, ',')
      case None => None
      case Some((b, u)) => if u != "" && u[0] == ')' then Some(((a, b), u[1..])) else None
  }

  /** One row or more, separated by commas and closed by a semicolon at the very end. */
  function ReadRows(s: string): Option<seq<Row>>
    decreases |s|
  {
    match ReadRow(s)
    case None => None
    case Some((r, rest)) =>
      if rest == ";" then Some([r])
      else if rest == "" || rest[0] != ',' || |rest| > |s| then None
      else match ReadRows(rest[1..])
        case None => None
        case Some(rs) => Some([r] + rs)
  }

  lemma {:induction false} DigitRunOf(a: string, b: string)
    requires AllDigits(a) && (b == "" || !IsDigit(b[0]))
    ensures DigitRun(a + b) == |a|
  {
    if a == "" {
      assert a + b == b;
    } else {
      assert (a + b)[1..] == a[1..] + b;
      DigitRunOf(a[1..], b);
    }
  }

  lemma ReadPrinted(n: nat, b: string)
    requires b == "" || !IsDigit(b[0])
    ensures ReadNumber(Print(n) + b) == Some((n, b))
  {
    DigitRunOf(Print(n), b);
    PrintRoundTrip(n);
    assert (Print(n) + b)[..|Print(n)|] == Print(n);
    assert (Print(n) + b)[|Print(n)|..] == b;
  }

  lemma ReadFieldText(c: char, n: nat, b: string)
    requires b == "" || !IsDigit(b[0])
    ensures ReadField([c] + Print(n) + b, c) == Some((n, b))
  {
    assert ([c] + Print(n) + b)[1..] == Print(n) + b;
    ReadPrinted(n, b);
  }

  lemma ReadRowText(r: Row, b: string)
    ensures ReadRow(RowText(r) + b) == Some((r, b))
  {
    var u := ")" + b;
    var t := "," + Print(r.1) + u;
    assert RowText(r) + b == "(" + Print(r.0) + t;
    ReadFieldText('(', r.0, t);
    ReadFieldText(',', r.1, u);
    assert u[1..] == b;
  }

  lemma ReadLastRow(r: Row)
    ensures ReadRows(RowText(r) + ";") == Some([r])
  {
    ReadRowText(r, ";");
  }

  lemma {:induction false} ReadMoreRows(r: Row, tail: string)
    ensures ReadRows(RowText(r) + ("," + tail)) == match ReadRows(tail) case None => None case Some(rs) => Some([r] + rs)
  {
    ReadRowText(r, "," + tail);
    assert ("," + tail)[1..] == tail;
    assert ("," + tail)[0] == ',' != ";"[0];
  }

  /** A non-empty list of rows is read back exactly, in order; an empty one is not a statement. */
  lemma {:induction false} RowsReadBack(rows: seq<Row>)
    ensures ReadRows(RowsText(rows)) == if rows == [] then None else Some(rows)
  {
    if rows != [] {
      var r, rs := rows[0], rows[1..];
      assert rows == [r] + rs;
      if rs == [] {
        ReadLastRow(r);
        assert rows == [r];
      } else {
        RowsReadBack(rs);
        ReadMoreRows(r, RowsText(rs));
      }
    }
  }

  /** The text a database executes: a head followed by rows. */
  function ExecInsert(head: string, sql: string): Option<seq<Row>> {
    if head <= sql then ReadRows(sql[|head|..]) else None
  }

  lemma {:induction false} InsertExecutes(head: string, rows: seq<Row>)
    ensures ExecInsert(head, head + RowsText(rows)) == if rows == [] then None else Some(rows)
  {
    assert (head + RowsText(rows))[|head|..] == RowsText(rows);
    RowsReadBack(rows);
  }
}
