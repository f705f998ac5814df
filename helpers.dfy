/** The check contract and the shared helpers every check calls: the
    `(exit code, message)` result, the generic "wanted / found" diagnostic, list
    membership, column extraction from tokenized output, row/column splitting
    and the strict integer parse of parameters. The source of these helpers is
    not part of this model; they are given the behaviour the checks rely on
    and no more. */
module Helpers {
  import opened Text

  /** What a check or a data-gathering step ends with: an exit code and message
      returned to the caller, or a fatal stop of the whole run (log.Fatal or a
      runtime panic) with the text it reports. */
  datatype Outcome = Exit(code: int, message: string) | Fatal(reason: string)

  /** A value, or the fatal stop that prevented it. */
  datatype Result<T> = Ok(value: T) | Err(reason: string)

  /** The success result: exit code 0 and an empty message. */
  const Pass: Outcome := Exit(0, "")

  /** Rows of tokenized command or file output, each a sequence of fields. */
  type Row = seq<string>
  type Table = seq<Row>

  /** genericError(heading, wanted, found): a failing result built from what was
      looked for and what was present. Its exact rendering belongs to a file
      outside this model; the checks rely on the exit code being 1 and on the
      message naming what was wanted and every value found
      (GenericErrorNamesAll). */
  function GenericError(heading: string, wanted: string, found: seq<string>): (r: Outcome)
    ensures r.Exit? && r.code == 1 && r.message != ""
  {
    Exit(1, heading + "\n\tWanted: " + wanted + "\n\tFound: " + Listed(found))
  }

  function Listed(found: seq<string>): string
  {
    if found == [] then "(none)" else Join(found, ',')
  }

  /** The generic diagnostic names the wanted value and every value found. */
  lemma GenericErrorNamesAll(heading: string, wanted: string, found: seq<string>)
    ensures Contains(GenericError(heading, wanted, found).message, wanted)
    ensures forall k :: 0 <= k < |found| ==> Contains(GenericError(heading, wanted, found).message, found[k])
  {
    var pre := heading + "\n\tWanted: ";
    var post := "\n\tFound: " + Listed(found);
    assert GenericError(heading, wanted, found).message == pre + wanted + post;
    ContainsPiece(pre, wanted, post);
    JoinContains(found, ',');
    ContainsAllWithin(pre + wanted + "\n\tFound: ", Listed(found), "", found);
    assert pre + wanted + "\n\tFound: " + Listed(found) + "" == pre + wanted + post;
  }

  /** strIn(s, list): `s` is an element of `list`. */
  predicate StrIn(s: string, list: seq<string>)
  {
    s in list
  }

  /** Field `col` of every row that has one, in row order. */
  function Column(rows: Table, col: nat): (column: seq<string>)
    ensures |column| <= |rows|
    ensures forall x :: x in column <==> exists k :: 0 <= k < |rows| && col < |rows[k]| && rows[k][col] == x
  {
    if |rows| == 0 then []
    else
      var init := Column(rows[..|rows| - 1], col);
      var last := rows[|rows| - 1];
      assert forall k :: 0 <= k < |rows| - 1 ==> rows[..|rows| - 1][k] == rows[k];
      init + (if col < |last| then [last[col]] else [])
  }

  /** getColumnNoHeader(col, rows) and commandColumnNoHeader(col, cmd) once the
      command's output is tokenized: the first row is dropped as a header, and a
      row too short for `col` contributes nothing. */
  function ColumnNoHeader(table: Table, col: nat): (column: seq<string>)
    ensures |column| < |table| || |table| == 0
    ensures forall x :: x in column <==> exists k :: 1 <= k < |table| && col < |table[k]| && table[k][col] == x
  {
    if |table| == 0 then []
    else
      var column := Column(table[1..], col);
      assert forall k :: 1 <= k < |table| ==> table[1..][k - 1] == table[k];
      column
  }

  /** separateString(rowSep, colSep, data) with one-character literal
      separators: split into rows, then every row into fields. */
  function SeparateString(data: string, rowSep: char, colSep: char): (table: Table)
    ensures |table| >= 1
    ensures forall k :: 0 <= k < |table| ==> |table[k]| >= 1
  {
    var rows := Split(data, rowSep);
    seq(|rows|, k requires 0 <= k < |rows| => Split(rows[k], colSep))
  }

  /** There is one row per line, and joining a row's fields gives its line
      back. */
  lemma SeparateStringRows(data: string, rowSep: char, colSep: char)
    ensures |SeparateString(data, rowSep, colSep)| == |Split(data, rowSep)|
    ensures forall k :: 0 <= k < |Split(data, rowSep)| ==>
              Join(SeparateString(data, rowSep, colSep)[k], colSep) == Split(data, rowSep)[k]
  {
    var rows := Split(data, rowSep);
    forall k | 0 <= k < |rows|
      ensures Join(SeparateString(data, rowSep, colSep)[k], colSep) == rows[k]
    {
      JoinSplit(rows[k], colSep);
    }
  }

  /** One line of fields free of both separators tokenizes back into itself:
      tokenizing is the inverse of joining with the column separator. */
  lemma SeparateStringOneRow(fields: Row, rowSep: char, colSep: char)
    requires |fields| >= 1 && rowSep != colSep
    requires forall k :: 0 <= k < |fields| ==> rowSep !in fields[k] && colSep !in fields[k]
    ensures SeparateString(Join(fields, colSep), rowSep, colSep) == [fields]
  {
    var line := Join(fields, colSep);
    JoinExcludes(fields, colSep, rowSep);
    SplitNoSep(line, rowSep);
    SplitJoin(fields, colSep);
  }

  /** parseMyInt(s): the strict decimal parse of a numeric parameter, stopping
      the run on a malformed one. */
  function ParseMyInt(s: string): (r: Result<int>)
    ensures r.Ok? ==> MinInt64 <= r.value <= MaxInt64
  {
    match ParseInt(s, 10)
    case Some(n) => Ok(n)
    case None => Err("Could not parse integer: " + s)
  }

  /** A numeric parameter is accepted exactly when it is a signed decimal digit
      string whose value fits in 64 bits, and it then has that value; otherwise
      the reason names the parameter. */
  lemma ParseMyIntStrict(s: string)
    ensures ParseMyInt(s).Ok? <==> Int64Text(s, 10)
    ensures forall sign, ds :: SignedDigits(s, sign, ds, 10) && MinInt64 <= SignedValue(sign, ds, 10) <= MaxInt64 ==>
              ParseMyInt(s) == Ok(SignedValue(sign, ds, 10))
    ensures ParseMyInt(s).Err? ==> Contains(ParseMyInt(s).reason, s)
  {
    ParseIntStrict(s, 10);
    ContainsPiece("Could not parse integer: ", s, "");
    assert "Could not parse integer: " + s + "" == "Could not parse integer: " + s;
  }

  /** When every row has field `col`, the column has one entry per row, in
      row order. */
  lemma {:induction false} ColumnOfFullRows(rows: Table, col: nat)
    requires forall k :: 0 <= k < |rows| ==> col < |rows[k]|
    ensures |Column(rows, col)| == |rows|
    ensures forall k :: 0 <= k < |rows| ==> Column(rows, col)[k] == rows[k][col]
    decreases |rows|
  {
    if |rows| > 0 {
      var init := rows[..|rows| - 1];
      ColumnOfFullRows(init, col);
      assert Column(rows, col) == Column(init, col) + [rows[|rows| - 1][col]];
    }
  }
}
