/** The one-pass CSV reader: the index loop with one character of lookahead, and the
    lookahead-free machine that it refines. */
module CsvParser {
  import opened Prelude

  const QUOTE: char := '"'
  const COMMA: char := ','
  const LF: char := '\n'
  const CR: char := '\r'

  type Row = seq<string>

  datatype CsvError = EndedInsideQuotes

  predicate IsEol(ch: char) {
    ch == LF || ch == CR
  }

  /** True of the rows the parser drops: every cell is the empty string. */
  predicate AllBlank(row: Row) {
    forall i :: 0 <= i < |row| ==> row[i] == ""
  }

  /** The rows that remain of a single finished row. */
  function Kept(row: Row): seq<Row> {
    if AllBlank(row) then [] else [row]
  }

  function NonBlank(rows: seq<Row>): seq<Row> {
    if rows == [] then [] else NonBlank(rows[..|rows| - 1]) + Kept(rows[|rows| - 1])
  }

  function Quotes(s: string): nat {
    if s == "" then 0 else Quotes(s[..|s| - 1]) + if s[|s| - 1] == QUOTE then 1 else 0
  }

  predicate Balanced(s: string) {
    Quotes(s) % 2 == 0
  }

  /** A machine that reads one character at a time and never looks ahead.
      `closed` says that the last character closed a quoted stretch: a quote that comes next
      is the second half of a doubled quote. */
  datatype Machine = Machine(rows: seq<Row>, row: Row, cell: string, quoted: bool, closed: bool)

  const START := Machine([], [], "", false, false)

  function EndRow(m: Machine): Machine {
    Machine(m.rows + Kept(m.row + [m.cell]), [], "", false, false)
  }

  function Step(m: Machine, ch: char): Machine {
    if ch == QUOTE then
      if m.quoted then m.(quoted := false, closed := true)
      else if m.closed then m.(cell := m.cell + [QUOTE], quoted := true, closed := false)
      else m.(quoted := true)
    else if ch == COMMA && !m.quoted then
      m.(row := m.row + [m.cell], cell := "", closed := false)
    else if IsEol(ch) && !m.quoted then
      EndRow(m)
    else
      m.(cell := m.cell + [ch], closed := false)
  }

  function Run(m: Machine, s: string): Machine {
    if s == "" then m else Step(Run(m, s[..|s| - 1]), s[|s| - 1])
  }

  function Finish(m: Machine): Result<seq<Row>, CsvError> {
    if m.quoted then Err(EndedInsideQuotes)
    else if m.cell != "" || m.row != [] then Ok(m.rows + Kept(m.row + [m.cell]))
    else Ok(m.rows)
  }

  /** What the parser means: run the machine over the whole text, then flush. */
  function Parse(raw: string): Result<seq<Row>, CsvError> {
    Finish(Run(START, raw))
  }

  lemma RunSnoc(m: Machine, s: string, ch: char)
    ensures Run(m, s + [ch]) == Step(Run(m, s), ch)
  {
    assert (s + [ch])[..|s|] == s;
  }

  /** Reading the character at position i, and reading the two characters from position i. */
  lemma RunNext(raw: string, i: nat)
    requires i < |raw|
    ensures Run(START, raw[..i + 1]) == Step(Run(START, raw[..i]), raw[i])
    ensures i + 1 < |raw| ==>
              Run(START, raw[..i + 2]) == Step(Step(Run(START, raw[..i]), raw[i]), raw[i + 1])
  {
    assert raw[..i + 1] == raw[..i] + [raw[i]];
    RunSnoc(START, raw[..i], raw[i]);
    if i + 1 < |raw| {
      assert raw[..i + 2] == raw[..i + 1] + [raw[i + 1]];
      RunSnoc(START, raw[..i + 1], raw[i + 1]);
    }
  }

  /** The LF of a CRLF ends a row of one empty cell, which is dropped. */
  lemma {:induction false} LfAfterEol(m: Machine, ch: char)
    requires !m.quoted && IsEol(ch)
    ensures Step(Step(m, ch), LF) == Step(m, ch) == EndRow(m)
  {
    assert ([] + [""]) == [""];
    assert AllBlank([""]);
  }

  /** After any text the quote flag is the parity of the quote characters read. */
  lemma {:induction false} QuoteFlagIsParity(s: string)
    ensures Run(START, s).quoted <==> !Balanced(s)
  {
    if s != "" {
      QuoteFlagIsParity(s[..|s| - 1]);
    }
  }

  /** The one-pass loop of the importer. Both of its lookaheads are matched by the machine: the doubled quote
      by `closed`, and the LF of a CRLF by the rule that blank rows are dropped. */
  method ParseCsv(raw: string) returns (result: Result<seq<Row>, CsvError>)
    ensures result == Parse(raw)
    ensures result.Err? <==> !Balanced(raw)
  {
    var rows: seq<Row> := [];
    var row: Row := [];
    var cell := "";
    var quoted := false;
    ghost var closed := false;

    var i := 0;
    while i < |raw|
      invariant 0 <= i <= |raw|
      invariant Run(START, raw[..i]) == Machine(rows, row, cell, quoted, closed)
      invariant closed ==> !quoted && (i == |raw| || raw[i] != QUOTE)
    {
      var ch := raw[i];
      ghost var m := Machine(rows, row, cell, quoted, closed);
      RunNext(raw, i);
      if ch == QUOTE {
        if quoted && i + 1 < |raw| && raw[i + 1] == QUOTE {
          cell := cell + [QUOTE];
          i := i + 1;
          closed := false;
        } else {
          closed := quoted;
          quoted := !quoted;
        }
      } else if ch == COMMA && !quoted {
        row := row + [cell];
        cell := "";
        closed := false;
      } else if IsEol(ch) && !quoted {
        LfAfterEol(m, ch);
        if ch == CR && i + 1 < |raw| && raw[i + 1] == LF {
          i := i + 1;
        }
        row := row + [cell];
        if !AllBlank(row) {
          rows := rows + [row];
        }
        row := [];
        cell := "";
        closed := false;
      } else {
        cell := cell + [ch];
        closed := false;
      }
      i := i + 1;
    }
    assert raw[..|raw|] == raw;
    QuoteFlagIsParity(raw);
    assert rows + [] == rows;

    if cell != "" || row != [] {
      row := row + [cell];
      if !AllBlank(row) {
        rows := rows + [row];
      }
    }
    if quoted {
      return Err(EndedInsideQuotes);
    }
    return Ok(rows);
  }
}
