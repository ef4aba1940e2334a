/** Laws of the CSV reader: compositionality, the print/parse round trip, and the exact image
    of the parser. */
module CsvLaws {
  import opened Prelude
  import opened CsvParser

  datatype Eol = Lf | Cr | CrLf

  function EolText(eol: Eol): string {
    match eol
    case Lf => [LF]
    case Cr => [CR]
    case CrLf => [CR, LF]
  }

  // ---------- Concatenation ----------

  lemma {:induction false} RunConcat(m: Machine, a: string, b: string)
    ensures Run(m, a + b) == Run(Run(m, a), b)
  {
    if b == "" {
      assert a + b == a;
    } else {
      RunConcat(m, a, b[..|b| - 1]);
      assert a + b == (a + b[..|b| - 1]) + [b[|b| - 1]];
      RunSnoc(m, a + b[..|b| - 1], b[|b| - 1]);
    }
  }

  lemma {:induction false} QuotesConcat(a: string, b: string)
    ensures Quotes(a + b) == Quotes(a) + Quotes(b)
  {
    if b == "" {
      assert a + b == a;
    } else {
      QuotesConcat(a, b[..|b| - 1]);
      assert (a + b)[..|a + b| - 1] == a + b[..|b| - 1];
    }
  }

  lemma {:induction false} NonBlankConcat(a: seq<Row>, b: seq<Row>)
    ensures NonBlank(a + b) == NonBlank(a) + NonBlank(b)
  {
    if b == [] {
      assert a + b == a;
    } else {
      var init, last := b[..|b| - 1], b[|b| - 1];
      NonBlankConcat(a, init);
      assert (a + b)[..|a + b| - 1] == a + init && (a + b)[|a + b| - 1] == last;
      assert NonBlank(a + b) == (NonBlank(a) + NonBlank(init)) + Kept(last);
    }
  }

  /** Rows already finished never influence what is read next. */
  lemma {:induction false} RowsAreAppendOnly(rows: seq<Row>, m: Machine, s: string)
    ensures Run(m.(rows := rows + m.rows), s) == Run(m, s).(rows := rows + Run(m, s).rows)
  {
    if s != "" {
      var r := Run(m, s[..|s| - 1]);
      RowsAreAppendOnly(rows, m, s[..|s| - 1]);
      assert (rows + r.rows) + Kept(r.row + [r.cell]) == rows + (r.rows + Kept(r.row + [r.cell]));
    }
  }

  /** The rows of two texts in sequence; fails when either part fails. */
  function Combine(a: Result<seq<Row>, CsvError>, b: Result<seq<Row>, CsvError>): Result<seq<Row>, CsvError> {
    if a.Ok? && b.Ok? then Ok(a.value + b.value) else Err(EndedInsideQuotes)
  }

  lemma ParseAfterRows(rows: seq<Row>, s: string)
    ensures Finish(Run(START.(rows := rows), s)) == Combine(Ok(rows), Parse(s))
  {
    var r := Run(START, s);
    RowsAreAppendOnly(rows, START, s);
    assert rows + START.rows == rows;
    assert (rows + r.rows) + Kept(r.row + [r.cell]) == rows + (r.rows + Kept(r.row + [r.cell]));
  }

  /** A line end outside quotes leaves exactly the rows that stopping there would return. */
  lemma RunEol(a: string, eol: Eol)
    requires Balanced(a)
    ensures Parse(a).Ok?
    ensures Run(START, a + EolText(eol)) == START.(rows := Parse(a).value)
  {
    var m := Run(START, a);
    QuoteFlagIsParity(a);
    assert AllBlank([""]) && [] + [""] == [""] && m.rows + [] == m.rows;
    match eol {
      case Lf => RunSnoc(START, a, LF);
      case Cr => RunSnoc(START, a, CR);
      case CrLf =>
        RunSnoc(START, a, CR);
        RunSnoc(START, a + [CR], LF);
        LfAfterEol(m, CR);
        assert a + EolText(eol) == a + [CR] + [LF];
    }
  }

  lemma {:induction false} ParseFailsIffOdd(s: string)
    ensures Parse(s).Err? <==> !Balanced(s)
  {
    QuoteFlagIsParity(s);
  }

  /** Compositionality with its exact condition: parsing two texts joined by a line end gives
      the rows of both exactly when one of them has an even number of quotes. */
  lemma {:induction false} Compositionality(a: string, eol: Eol, b: string)
    ensures Parse(a + EolText(eol) + b) == Combine(Parse(a), Parse(b)) <==> Balanced(a) || Balanced(b)
  {
    ParseFailsIffOdd(a);
    ParseFailsIffOdd(b);
    ParseFailsIffOdd(a + EolText(eol) + b);
    QuotesConcat(a + EolText(eol), b);
    QuotesConcat(a, EolText(eol));
    assert Quotes(EolText(eol)) == 0 by { QuotesConcat([CR], [LF]); }
    if Balanced(a) {
      RunConcat(START, a + EolText(eol), b);
      RunEol(a, eol);
      ParseAfterRows(Parse(a).value, b);
    }
  }

  /** Replacing one line end outside quotes by another never changes the outcome. */
  lemma {:induction false} LineEndsAreInterchangeable(a: string, x: Eol, y: Eol, b: string)
    requires Balanced(a)
    ensures Parse(a + EolText(x) + b) == Parse(a + EolText(y) + b)
  {
    Compositionality(a, x, b);
    Compositionality(a, y, b);
  }

  // ---------- Printing ----------

  predicate Special(ch: char) {
    ch == QUOTE || ch == COMMA || IsEol(ch)
  }

  predicate Plain(s: string) {
    forall i :: 0 <= i < |s| ==> !Special(s[i])
  }

  /** A cell and how it is written. */
  datatype Field = Field(value: string, inQuotes: bool) {
    predicate Valid() { inQuotes || Plain(value) }
  }

  /** One line of a document: at least one cell, and the line end that follows it. */
  datatype Record = Record(fields: seq<Field>, eol: Eol) {
    predicate Valid() {
      fields != [] && forall i :: 0 <= i < |fields| ==> fields[i].Valid()
    }
    function Values(): Row { seq(|fields|, i requires 0 <= i < |fields| => fields[i].value) }
  }

  predicate ValidRecords(records: seq<Record>) {
    forall i :: 0 <= i < |records| ==> records[i].Valid()
  }

  function Doubled(s: string): string {
    if s == "" then ""
    else Doubled(s[..|s| - 1]) + if s[|s| - 1] == QUOTE then [QUOTE, QUOTE] else [s[|s| - 1]]
  }

  function PrintField(f: Field): string {
    if f.inQuotes then [QUOTE] + Doubled(f.value) + [QUOTE] else f.value
  }

  function PrintFields(fields: seq<Field>): string
    requires fields != []
  {
    if |fields| == 1 then PrintField(fields[0])
    else PrintFields(fields[..|fields| - 1]) + [COMMA] + PrintField(fields[|fields| - 1])
  }

  /** Every record followed by its own line end. */
  function PrintRecords(records: seq<Record>): string
    requires ValidRecords(records)
  {
    if records == [] then ""
    else
      var last := records[|records| - 1];
      PrintRecords(records[..|records| - 1]) + (PrintFields(last.fields) + EolText(last.eol))
  }

  function ValuesOf(records: seq<Record>): seq<Row> {
    seq(|records|, i requires 0 <= i < |records| => records[i].Values())
  }

  // ---------- Reading back what was printed ----------

  /** Inside quotes, a doubled-quote text adds exactly the text it encodes. */
  lemma {:induction false} RunDoubled(m: Machine, s: string)
    requires m.quoted && !m.closed
    ensures Run(m, Doubled(s)) == m.(cell := m.cell + s)
  {
    if s == "" {
      assert m.cell + s == m.cell;
    } else {
      var p, ch := s[..|s| - 1], s[|s| - 1];
      RunDoubled(m, p);
      assert m.cell + p + [ch] == m.cell + s;
      if ch == QUOTE {
        RunSnoc(m, Doubled(p), QUOTE);
        RunSnoc(m, Doubled(p) + [QUOTE], QUOTE);
        assert Doubled(s) == Doubled(p) + [QUOTE] + [QUOTE];
      } else {
        RunSnoc(m, Doubled(p), ch);
      }
    }
  }

  lemma {:induction false} RunPlain(m: Machine, s: string)
    requires !m.quoted && Plain(s)
    ensures Run(m, s) == m.(cell := m.cell + s, closed := m.closed && s == "")
  {
    if s == "" {
      assert m.cell + s == m.cell;
    } else {
      RunPlain(m, s[..|s| - 1]);
      assert m.cell + s[..|s| - 1] + [s[|s| - 1]] == m.cell + s;
    }
  }

  /** At the start of a cell, a printed field becomes exactly its value. */
  lemma RunField(m: Machine, f: Field)
    requires f.Valid() && !m.quoted && !m.closed && m.cell == ""
    ensures Run(m, PrintField(f)) == m.(cell := f.value, closed := f.inQuotes)
  {
    if f.inQuotes {
      var open := m.(quoted := true);
      RunConcat(m, [QUOTE], Doubled(f.value));
      assert Run(m, [QUOTE]) == open by { RunSnoc(m, "", QUOTE); assert "" + [QUOTE] == [QUOTE]; }
      RunDoubled(open, f.value);
      RunSnoc(m, [QUOTE] + Doubled(f.value), QUOTE);
    } else {
      RunPlain(m, f.value);
    }
  }

  lemma {:induction false} RunFields(m: Machine, fields: seq<Field>)
    requires m == START.(rows := m.rows)
    requires fields != [] && forall i :: 0 <= i < |fields| ==> fields[i].Valid()
    ensures var vs := Record(fields, Lf).Values();
            Run(m, PrintFields(fields)) ==
            m.(row := vs[..|vs| - 1], cell := vs[|vs| - 1], closed := fields[|fields| - 1].inQuotes)
  {
    var n := |fields| - 1;
    if n == 0 {
      RunField(m, fields[0]);
    } else {
      var init := fields[..n];
      RunFields(m, init);
      var vs, us := Record(fields, Lf).Values(), Record(init, Lf).Values();
      assert us[..n - 1] + [us[n - 1]] == us == vs[..n];
      RunSnoc(m, PrintFields(init), COMMA);
      RunConcat(m, PrintFields(init) + [COMMA], PrintField(fields[n]));
      RunField(m.(row := us), fields[n]);
    }
  }

  lemma ParseOneRecord(r: Record)
    requires r.Valid()
    ensures Parse(PrintFields(r.fields)) == Ok(Kept(r.Values()))
  {
    var vs, text := r.Values(), PrintFields(r.fields);
    RunFields(START, r.fields);
    assert vs == Record(r.fields, Lf).Values();
    assert vs[..|vs| - 1] + [vs[|vs| - 1]] == vs;
    assert Run(START, text).row + [Run(START, text).cell] == vs;
    assert [] + Kept(vs) == Kept(vs);
  }

  lemma ValuesOfSnoc(records: seq<Record>, r: Record)
    ensures NonBlank(ValuesOf(records + [r])) == NonBlank(ValuesOf(records)) + Kept(r.Values())
  {
    var all := ValuesOf(records + [r]);
    assert all[..|all| - 1] == ValuesOf(records);
  }

  lemma {:induction false} RunRecords(records: seq<Record>)
    requires ValidRecords(records)
    ensures Balanced(PrintRecords(records))
    ensures Run(START, PrintRecords(records)) == START.(rows := NonBlank(ValuesOf(records)))
  {
    if records != [] {
      var init, last := records[..|records| - 1], records[|records| - 1];
      var line := PrintFields(last.fields);
      assert records == init + [last];
      RunRecords(init);
      ValuesOfSnoc(init, last);
      ParseOneRecord(last);
      ParseFailsIffOdd(line);
      RunEol(line, last.eol);
      RunConcat(START, PrintRecords(init), line + EolText(last.eol));
      RowsAreAppendOnly(NonBlank(ValuesOf(init)), START, line + EolText(last.eol));
      assert NonBlank(ValuesOf(init)) + START.rows == NonBlank(ValuesOf(init));
    }
    QuoteFlagIsParity(PrintRecords(records));
  }

  /** Round trip, every line terminated: any cells, any quoting style per cell, any line end
      per row. What comes back is the rows written, less the all-blank ones. */
  lemma {:induction false} RoundTrip(records: seq<Record>)
    requires ValidRecords(records)
    ensures Parse(PrintRecords(records)) == Ok(NonBlank(ValuesOf(records)))
  {
    RunRecords(records);
  }

  /** Round trip when the last line has no line end. */
  lemma {:induction false} RoundTripUnterminated(records: seq<Record>, last: Record)
    requires ValidRecords(records) && last.Valid()
    ensures Parse(PrintRecords(records) + PrintFields(last.fields)) == Ok(NonBlank(ValuesOf(records + [last])))
  {
    var line := PrintFields(last.fields);
    RunRecords(records);
    RunConcat(START, PrintRecords(records), line);
    ParseAfterRows(NonBlank(ValuesOf(records)), line);
    ParseOneRecord(last);
    ValuesOfSnoc(records, last);
  }

  /** A quoted stretch may stand anywhere in a cell: the cell is the text before it, the text it
      encodes and the text after it. */
  lemma {:induction false} QuotedStretchInCell(before: string, quoted: string, after: string)
    requires Plain(before) && Plain(after)
    ensures Parse(before + [QUOTE] + Doubled(quoted) + [QUOTE] + after) == Ok(Kept([before + quoted + after]))
  {
    var upTo := before + [QUOTE] + Doubled(quoted);
    var inside := START.(cell := before, quoted := true);
    RunPlain(START, before);
    assert [] + before == before;
    RunSnoc(START, before, QUOTE);
    RunConcat(START, before + [QUOTE], Doubled(quoted));
    RunDoubled(inside, quoted);
    RunSnoc(START, upTo, QUOTE);
    RunConcat(START, upTo + [QUOTE], after);
    RunPlain(START.(cell := before + quoted, closed := true), after);
    assert [] + [before + quoted + after] == [before + quoted + after];
    assert [] + Kept([before + quoted + after]) == Kept([before + quoted + after]);
  }

  // ---------- The image of the parser ----------

  predicate NoBlankRow(rows: seq<Row>) {
    forall i :: 0 <= i < |rows| ==> !AllBlank(rows[i])
  }

  lemma {:induction false} RowsAreNeverBlank(s: string)
    ensures NoBlankRow(Run(START, s).rows)
  {
    if s != "" {
      RowsAreNeverBlank(s[..|s| - 1]);
    }
  }

  lemma {:induction false} NonBlankIsIdentity(rows: seq<Row>)
    requires NoBlankRow(rows)
    ensures NonBlank(rows) == rows
  {
    if rows != [] {
      assert rows == rows[..|rows| - 1] + [rows[|rows| - 1]];
      NonBlankIsIdentity(rows[..|rows| - 1]);
    }
  }

  /** The plainest way to write rows: every cell in quotes, every line ended by LF. */
  function Canonical(rows: seq<Row>): seq<Record> {
    seq(|rows|, i requires 0 <= i < |rows| => Record(Quoted(rows[i]), Lf))
  }

  function Quoted(row: Row): seq<Field> {
    seq(|row|, j requires 0 <= j < |row| => Field(row[j], true))
  }

  lemma CanonicalValues(rows: seq<Row>)
    requires NoBlankRow(rows)
    ensures ValidRecords(Canonical(rows)) && ValuesOf(Canonical(rows)) == rows
  {
    forall i | 0 <= i < |rows| ensures Canonical(rows)[i].Values() == rows[i] {}
  }

  /** The parser returns exactly the lists of rows that contain no all-blank row: it never
      returns another, and it returns each of them for some text. */
  lemma {:induction false} ImageOfParser(rows: seq<Row>)
    ensures (exists raw :: Parse(raw) == Ok(rows)) <==> NoBlankRow(rows)
  {
    if raw :| Parse(raw) == Ok(rows) {
      RowsAreNeverBlank(raw);
    }
    if NoBlankRow(rows) {
      CanonicalValues(rows);
      RoundTrip(Canonical(rows));
      NonBlankIsIdentity(rows);
    }
  }

  /** Rewriting any accepted text canonically does not change what it means. */
  lemma {:induction false} NormalisationPreservesMeaning(raw: string)
    requires Balanced(raw)
    ensures Parse(raw).Ok?
    ensures ValidRecords(Canonical(Parse(raw).value))
    ensures Parse(PrintRecords(Canonical(Parse(raw).value))) == Parse(raw)
  {
    ParseFailsIffOdd(raw);
    var rows := Parse(raw).value;
    ImageOfParser(rows);
    CanonicalValues(rows);
    RoundTrip(Canonical(rows));
    NonBlankIsIdentity(rows);
  }
}
