/** From rows to records: the header row, rectangularity, and lookup by column name. */
module CsvTable {
  import opened Prelude
  import opened CsvParser
  import opened CsvLaws
  import opened Keys

  const BYTE_ORDER_MARK: char := '\U{FEFF}'
  const PIPE: char := '|'

  type CsvRecord = map<string, string>

  datatype TableError =
    | Unterminated
    | EmptyFile
    | MalformedRow(number: nat)
    | HeaderMismatch

  function StripBom(raw: string): string {
    if raw != "" && raw[0] == BYTE_ORDER_MARK then raw[1..] else raw
  }

  /** One row as a record. A repeated column name keeps its last cell. */
  function RecordOf(headers: Row, row: Row): CsvRecord {
    if headers == [] then map[]
    else
      var n := |headers| - 1;
      RecordOf(headers[..n], row)[headers[n] := if n < |row| then row[n] else ""]
  }

  /** The last column of this name. */
  predicate IsLastNamed(headers: Row, i: nat) {
    i < |headers| && forall j :: i < j < |headers| ==> headers[j] != headers[i]
  }

  /** The record has exactly the columns named, each with the cell under the last column of its
      name, and with "" where the row is too short. */
  ghost predicate IsRecordOf(record: CsvRecord, headers: Row, row: Row) {
    && (forall h :: h in record <==> h in headers)
    && (forall i :: 0 <= i < |headers| && IsLastNamed(headers, i) ==>
          headers[i] in record && record[headers[i]] == if i < |row| then row[i] else "")
  }

  predicate Rectangular(rows: seq<Row>) {
    forall i :: 0 <= i < |rows| ==> |rows[i]| == |rows[0]|
  }

  /** The header check compares the joined texts, not the lists. */
  predicate HeaderAccepted(expected: Option<Row>, headers: Row) {
    expected.Some? ==> Join(expected.value, [PIPE]) == Join(headers, [PIPE])
  }

  /** What one file's rows amount to once they have been parsed. */
  predicate WellFormed(rows: seq<Row>, expected: Option<Row>) {
    rows != [] && Rectangular(rows) && HeaderAccepted(expected, rows[0])
  }

  function RecordsOf(headers: Row, rows: seq<Row>): seq<CsvRecord> {
    seq(|rows|, i requires 0 <= i < |rows| => RecordOf(headers, rows[i]))
  }

  /** Reads one file. The errors are those of the first check that fails, in the order: quotes,
      emptiness, first row of the wrong length (numbered from 1), header. */
  method ReadCsv(raw: string, expected: Option<Row>) returns (result: Result<seq<CsvRecord>, TableError>)
    ensures result.Ok? <==> Parse(StripBom(raw)).Ok? && WellFormed(Parse(StripBom(raw)).value, expected)
    ensures expected.None? ==>
              (result.Ok? <==>
                && Balanced(StripBom(raw)) && Parse(StripBom(raw)).Ok? && Parse(StripBom(raw)).value != []
                && forall i :: 0 <= i < |Parse(StripBom(raw)).value| ==>
                     |Parse(StripBom(raw)).value[i]| == |Parse(StripBom(raw)).value[0]|)
    ensures result.Ok? ==>
              var rows := Parse(StripBom(raw)).value;
              && |result.value| == |rows| - 1
              && (forall k :: 1 <= k < |rows| ==> result.value[k - 1] == RecordOf(rows[0], rows[k]))
              && (expected.Some? ==> Join(expected.value, "|") == Join(rows[0], "|"))
    ensures result == Err(Unterminated) <==> !Balanced(StripBom(raw))
    ensures result == Err(EmptyFile) <==> Parse(StripBom(raw)) == Ok([])
    ensures result.Err? && result.error.MalformedRow? ==>
              && Parse(StripBom(raw)).Ok?
              && var rows, k := Parse(StripBom(raw)).value, result.error.number;
              && 1 <= k <= |rows| && |rows[k - 1]| != |rows[0]| && Rectangular(rows[..k - 1])
    ensures result == Err(HeaderMismatch) ==>
              && Parse(StripBom(raw)).Ok?
              && var rows := Parse(StripBom(raw)).value;
              && rows != [] && Rectangular(rows)
              && expected.Some? && Join(expected.value, "|") != Join(rows[0], "|")
  {
    var parsed := ParseCsv(StripBom(raw));
    if parsed.Err? {
      return Err(Unterminated);
    }
    var rows := parsed.value;
    if |rows| == 0 {
      return Err(EmptyFile);
    }
    var headers := rows[0];
    for idx := 0 to |rows|
      invariant forall i :: 0 <= i < idx ==> |rows[i]| == |headers|
    {
      if |rows[idx]| != |headers| {
        return Err(MalformedRow(idx + 1));
      }
    }
    if expected.Some? && Join(expected.value, [PIPE]) != Join(headers, [PIPE]) {
      return Err(HeaderMismatch);
    }
    var records := RecordsOf(headers, rows[1..]);
    return Ok(records);
  }

  // ---------- Reading a printed table back ----------

  lemma {:induction false} NamesInRecord(headers: Row, row: Row, h: string)
    ensures h in RecordOf(headers, row) <==> h in headers
  {
    if headers != [] {
      NamesInRecord(headers[..|headers| - 1], row, h);
      assert headers == headers[..|headers| - 1] + [headers[|headers| - 1]];
    }
  }

  lemma {:induction false} CellOfLast(headers: Row, row: Row, i: nat)
    requires i < |headers| && IsLastNamed(headers, i)
    ensures headers[i] in RecordOf(headers, row)
    ensures RecordOf(headers, row)[headers[i]] == if i < |row| then row[i] else ""
  {
    var n := |headers| - 1;
    if i < n {
      assert IsLastNamed(headers[..n], i);
      CellOfLast(headers[..n], row, i);
    }
  }

  lemma LookupByName(headers: Row, row: Row)
    ensures IsRecordOf(RecordOf(headers, row), headers, row)
  {
    forall h ensures h in RecordOf(headers, row) <==> h in headers {
      NamesInRecord(headers, row, h);
    }
    forall i | 0 <= i < |headers| && IsLastNamed(headers, i)
      ensures headers[i] in RecordOf(headers, row)
      ensures RecordOf(headers, row)[headers[i]] == if i < |row| then row[i] else ""
    {
      CellOfLast(headers, row, i);
    }
  }

  /** A row's record is the one with the columns named and the cells under them, and no other. */
  lemma {:induction false} RecordLookup(record: CsvRecord, headers: Row, row: Row)
    ensures record == RecordOf(headers, row) <==> IsRecordOf(record, headers, row)
  {
    LookupByName(headers, row);
    if IsRecordOf(record, headers, row) {
      forall h | h in record ensures h in RecordOf(headers, row) && record[h] == RecordOf(headers, row)[h] {
        var i := LastNamed(headers, h);
      }
    }
  }

  lemma {:induction false} LastNamed(headers: Row, h: string) returns (i: nat)
    requires h in headers
    ensures IsLastNamed(headers, i) && headers[i] == h
  {
    i := |headers| - 1;
    if headers[i] != h {
      assert headers == headers[..i] + [headers[i]];
      i := LastNamed(headers[..i], h);
    }
  }

  /** Every cell of the row can be read back by its column name. */
  ghost predicate Recoverable(headers: Row, row: Row)
    requires |row| == |headers|
  {
    forall i :: 0 <= i < |headers| ==>
      headers[i] in RecordOf(headers, row) && RecordOf(headers, row)[headers[i]] == row[i]
  }

  /** Records keep every cell of every row exactly when the column names are distinct. */
  lemma {:induction false} RecordsLoseNothingIffHeadersDistinct(headers: Row)
    ensures (forall row: Row | |row| == |headers| :: Recoverable(headers, row)) <==> Distinct(headers)
  {
    if Distinct(headers) {
      forall row: Row | |row| == |headers| ensures Recoverable(headers, row) {
        LookupByName(headers, row);
        forall i | 0 <= i < |headers|
          ensures headers[i] in RecordOf(headers, row) && RecordOf(headers, row)[headers[i]] == row[i]
        {
          assert IsLastNamed(headers, i);
        }
      }
    } else {
      var i, j :| 0 <= i < j < |headers| && headers[i] == headers[j];
      var row: Row := seq(|headers|, k => if k == i then "a" else "b");
      assert row[i] != row[j];
      assert !Recoverable(headers, row);
    }
  }

  predicate HasBom(text: string) {
    text != "" && text[0] == BYTE_ORDER_MARK
  }

  lemma {:induction false} NonBlankSelects(rows: seq<Row>)
    ensures forall i :: 0 <= i < |NonBlank(rows)| ==> NonBlank(rows)[i] in rows
  {
    if rows != [] {
      NonBlankSelects(rows[..|rows| - 1]);
      assert forall row :: row in rows[..|rows| - 1] ==> row in rows;
    }
  }

  function WithBom(bom: bool, text: string): string {
    if bom then [BYTE_ORDER_MARK] + text else text
  }

  /** Round trip of a whole file: write a header and rows of its width in any style, with or
      without a byte order mark. Reading it back gives the header and the rows, in order, less
      the rows that are all blank; and the table passes every check. */
  lemma {:induction false} TableRoundTrip(lines: seq<Record>, headers: Row, rows: seq<Row>, bom: bool)
    requires ValidRecords(lines) && ValuesOf(lines) == [headers] + rows
    requires !AllBlank(headers)
    requires forall i :: 0 <= i < |rows| ==> |rows[i]| == |headers|
    requires bom || !HasBom(PrintRecords(lines))
    ensures Parse(StripBom(WithBom(bom, PrintRecords(lines)))) == Ok([headers] + NonBlank(rows))
    ensures WellFormed([headers] + NonBlank(rows), Some(headers)) && WellFormed([headers] + NonBlank(rows), None)
  {
    RoundTrip(lines);
    NonBlankConcat([headers], rows);
    NonBlankIsIdentity([headers]);
    TableShape(headers, rows);
  }

  lemma TableShape(headers: Row, rows: seq<Row>)
    requires forall i :: 0 <= i < |rows| ==> |rows[i]| == |headers|
    ensures WellFormed([headers] + NonBlank(rows), Some(headers)) && WellFormed([headers] + NonBlank(rows), None)
  {
    NonBlankSelects(rows);
  }

  // ---------- What the header check lets through ----------

  function Pipes(s: string): nat {
    if s == "" then 0 else (if s[0] == PIPE then 1 else 0) + Pipes(s[1..])
  }

  lemma {:induction false} PipesConcat(a: string, b: string)
    ensures Pipes(a + b) == Pipes(a) + Pipes(b)
  {
    if a == "" {
      assert a + b == b;
    } else {
      PipesConcat(a[1..], b);
      assert (a + b)[1..] == a[1..] + b;
    }
  }

  lemma {:induction false} NoPipes(s: string)
    ensures Pipes(s) == 0 <==> PIPE !in s
  {
    if s != "" {
      NoPipes(s[1..]);
      assert s == [s[0]] + s[1..];
    }
  }

  /** A joined text has one pipe fewer than it has parts exactly when no part holds a pipe. */
  lemma {:induction false} JoinedPipes(parts: seq<string>)
    requires parts != []
    ensures Pipes(Join(parts, [PIPE])) >= |parts| - 1
    ensures Pipes(Join(parts, [PIPE])) == |parts| - 1 <==> FreeOf(PIPE, parts)
  {
    NoPipes(parts[0]);
    if |parts| > 1 {
      JoinedPipes(parts[1..]);
      var rest := Join(parts[1..], [PIPE]);
      PipesConcat(parts[0] + [PIPE], rest);
      PipesConcat(parts[0], [PIPE]);
      assert Pipes([PIPE]) == 1;
      assert forall i :: 0 < i < |parts| ==> parts[i] == parts[1..][i - 1];
    }
  }

  /** Against pipe-free expected names, a header row that passes the check and differs from
      them has merged columns: it has strictly fewer, and one of its names holds a pipe. */
  lemma {:induction false} HeaderCheckAcceptsOnlyMergedColumns(expected: Row, headers: Row)
    requires expected != [] && headers != [] && FreeOf(PIPE, expected)
    requires HeaderAccepted(Some(expected), headers)
    ensures headers == expected <==> |headers| == |expected|
    ensures headers != expected <==> |headers| < |expected| && !FreeOf(PIPE, headers)
  {
    JoinedPipes(expected);
    JoinedPipes(headers);
    if |headers| == |expected| {
      JoinInjective(headers, expected, [PIPE]);
    }
  }

  /** Such header rows exist: two expected columns merged into one. */
  lemma {:induction false} MergedColumnsPass(a: string, b: string)
    ensures HeaderAccepted(Some([a, b]), [a + [PIPE] + b])
  {
    assert [a, b][1..] == [b] && Join([b], [PIPE]) == b;
  }
}
