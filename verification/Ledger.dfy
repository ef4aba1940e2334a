/** The import of journals: headers by upsert with recomputed totals, lines by delete and
    recreate. */
module Ledger {
  import opened Prelude
  import opened Keys
  import opened Money
  import opened Validator
  import opened OwnedRows

  /** A stored journal header, found under its organization and number. */
  datatype Header = Header(id: Id, debit: int, credit: int)

  type HeaderKey = (string, string)
  type Headers = map<HeaderKey, Header>

  datatype LedgerLine = LedgerLine(id: Id, headerId: Id, direction: string, amount: int)

  datatype LedgerDb = LedgerDb(headers: Headers, lines: seq<LedgerLine>)

  datatype LedgerError = IdTaken | UnknownJournal

  const JOURNAL_LABEL := "journal:"
  const LINE_LABEL := "journal-line:"

  function JournalId(number: string): Id {
    StableId(JOURNAL_LABEL + number)
  }

  function LineId(l: JournalLineRow): Id {
    StableId(LINE_LABEL + Join([l.journal, l.direction, l.account, l.amount, l.memo], [COLON]))
  }

  function RowKey(j: JournalRow): HeaderKey {
    (j.org, j.number)
  }

  // ---------- Headers ----------

  /** The importer's own totals: a line that is not a debit counts as credit. */
  function ImporterSides(number: string, lines: seq<JournalLineRow>): Sides {
    if lines == [] then Sides(0, 0)
    else
      var acc, l := ImporterSides(number, lines[..|lines| - 1]), lines[|lines| - 1];
      if l.journal != number then acc
      else if l.direction == DEBIT then acc.(debit := acc.debit + Cents(l.amount))
      else acc.(credit := acc.credit + Cents(l.amount))
  }

  /** Headers as stored, and the id of the header last met under each number. */
  datatype HeaderState = HeaderState(headers: Headers, byNumber: map<string, Id>)

  predicate HeaderIdTaken(headers: Headers, id: Id) {
    exists k :: k in headers && headers[k].id == id
  }

  function UpsertHeader(
    st: HeaderState, j: JournalRow, totals: Sides, skipExisting: bool): Result<HeaderState, LedgerError> {
    var key := RowKey(j);
    if key in st.headers then
      var h := st.headers[key];
      var headers := if skipExisting then st.headers
                     else st.headers[key := Header(h.id, totals.debit, totals.credit)];
      Ok(HeaderState(headers, st.byNumber[j.number := h.id]))
    else if HeaderIdTaken(st.headers, JournalId(j.number)) then Err(IdTaken)
    else
      var h := Header(JournalId(j.number), totals.debit, totals.credit);
      Ok(HeaderState(st.headers[key := h], st.byNumber[j.number := h.id]))
  }

  function ImportHeaders(headers: Headers, journals: seq<JournalRow>, lines: seq<JournalLineRow>, skipExisting: bool)
    : Result<HeaderState, LedgerError>
  {
    if journals == [] then Ok(HeaderState(headers, map[]))
    else
      var before := ImportHeaders(headers, journals[..|journals| - 1], lines, skipExisting);
      var j := journals[|journals| - 1];
      if before.Err? then before
      else UpsertHeader(before.value, j, ImporterSides(j.number, lines), skipExisting)
  }

  // ---------- Lines ----------

  predicate LineHeld(lines: seq<LedgerLine>, id: Id) {
    exists k :: 0 <= k < |lines| && lines[k].id == id
  }

  /** The lines of headers other than these. */
  function LinesOutside(lines: seq<LedgerLine>, headerIds: set<Id>): seq<LedgerLine> {
    if lines == [] then []
    else
      var last := lines[|lines| - 1];
      LinesOutside(lines[..|lines| - 1], headerIds) + if last.headerId in headerIds then [] else [last]
  }

  function CreateLine(lines: seq<LedgerLine>, byNumber: map<string, Id>, l: JournalLineRow)
    : Result<seq<LedgerLine>, LedgerError>
  {
    if l.journal !in byNumber then Err(UnknownJournal)
    else if LineHeld(lines, LineId(l)) then Err(IdTaken)
    else Ok(lines + [LedgerLine(LineId(l), byNumber[l.journal], l.direction, Cents(l.amount))])
  }

  /** Lines are created one by one; a taken id or an unknown journal stops the import. */
  function CreateLines(kept: seq<LedgerLine>, byNumber: map<string, Id>, rows: seq<JournalLineRow>)
    : Result<seq<LedgerLine>, LedgerError>
  {
    if rows == [] then Ok(kept)
    else
      var before := CreateLines(kept, byNumber, rows[..|rows| - 1]);
      if before.Err? then before else CreateLine(before.value, byNumber, rows[|rows| - 1])
  }

  function ImportJournals(db: LedgerDb, journals: seq<JournalRow>, rows: seq<JournalLineRow>, skipExisting: bool)
    : Result<LedgerDb, LedgerError>
  {
    var st := ImportHeaders(db.headers, journals, rows, skipExisting);
    if st.Err? then Err(st.error)
    else
      var lines := CreateLines(LinesOutside(db.lines, st.value.byNumber.Values), st.value.byNumber, rows);
      if lines.Err? then Err(lines.error) else Ok(LedgerDb(st.value.headers, lines.value))
  }

  // ---------- The store ----------

  method ComputeTotals(number: string, lines: seq<JournalLineRow>) returns (totals: Sides)
    ensures totals == ImporterSides(number, lines)
  {
    totals := Sides(0, 0);
    for i := 0 to |lines|
      invariant totals == ImporterSides(number, lines[..i])
    {
      assert lines[..i + 1][..i] == lines[..i];
      if lines[i].journal == number {
        if lines[i].direction == DEBIT {
          totals := totals.(debit := totals.debit + Cents(lines[i].amount));
        } else {
          totals := totals.(credit := totals.credit + Cents(lines[i].amount));
        }
      }
    }
    assert lines[..|lines|] == lines;
  }

  lemma {:induction false} HeadersFailForGood(
    headers: Headers, journals: seq<JournalRow>, lines: seq<JournalLineRow>, skipExisting: bool, n: nat)
    requires n <= |journals| && ImportHeaders(headers, journals[..n], lines, skipExisting).Err?
    ensures ImportHeaders(headers, journals, lines, skipExisting)
         == ImportHeaders(headers, journals[..n], lines, skipExisting)
    decreases |journals| - n
  {
    if n < |journals| {
      assert journals[..n + 1][..n] == journals[..n];
      HeadersFailForGood(headers, journals, lines, skipExisting, n + 1);
    } else {
      assert journals[..n] == journals;
    }
  }

  lemma {:induction false} LinesFailForGood(
    kept: seq<LedgerLine>, byNumber: map<string, Id>, rows: seq<JournalLineRow>, n: nat)
    requires n <= |rows| && CreateLines(kept, byNumber, rows[..n]).Err?
    ensures CreateLines(kept, byNumber, rows) == CreateLines(kept, byNumber, rows[..n])
    decreases |rows| - n
  {
    if n < |rows| {
      assert rows[..n + 1][..n] == rows[..n];
      LinesFailForGood(kept, byNumber, rows, n + 1);
    } else {
      assert rows[..n] == rows;
    }
  }

  /** The headers are what the journals before some failing one made of them. */
  ghost predicate HeadersStopped(
    start: Headers, journals: seq<JournalRow>, rows: seq<JournalLineRow>, skipExisting: bool,
    headers: Headers, error: LedgerError)
  {
    exists n, byNumber :: 0 <= n < |journals|
      && ImportHeaders(start, journals[..n], rows, skipExisting) == Ok(HeaderState(headers, byNumber))
      && ImportHeaders(start, journals[..n + 1], rows, skipExisting) == Err(error)
  }

  /** The lines are what the rows before some failing one made of them. */
  ghost predicate LinesStopped(
    kept: seq<LedgerLine>, byNumber: map<string, Id>, rows: seq<JournalLineRow>,
    lines: seq<LedgerLine>, error: LedgerError)
  {
    exists n :: 0 <= n < |rows| && CreateLines(kept, byNumber, rows[..n]) == Ok(lines)
                && CreateLine(lines, byNumber, rows[n]) == Err(error)
  }

  /** What a failed import leaves behind: some headers and all lines as they were; or all headers,
      the journals' old lines gone and some of the new ones. Nothing is rolled back. */
  ghost predicate ImportStopped(
    db: LedgerDb, journals: seq<JournalRow>, rows: seq<JournalLineRow>, skipExisting: bool,
    after: LedgerDb, error: LedgerError)
  {
    match ImportHeaders(db.headers, journals, rows, skipExisting)
    case Err(_) => after.lines == db.lines
                   && HeadersStopped(db.headers, journals, rows, skipExisting, after.headers, error)
    case Ok(st) => after.headers == st.headers
                   && LinesStopped(LinesOutside(db.lines, st.byNumber.Values), st.byNumber, rows, after.lines, error)
  }

  /** The journal tables, updated row by row. A failed import keeps the rows already written. */
  class LedgerStore {
    var headers: Headers
    var lines: seq<LedgerLine>

    ghost function Contents(): LedgerDb
      reads this
    {
      LedgerDb(headers, lines)
    }

    constructor (headers: Headers, lines: seq<LedgerLine>)
      ensures Contents() == LedgerDb(headers, lines)
    {
      this.headers, this.lines := headers, lines;
    }

    method WriteHeaders(journals: seq<JournalRow>, rows: seq<JournalLineRow>, skipExisting: bool)
      returns (error: Option<LedgerError>, byNumber: map<string, Id>)
      modifies this`headers
      ensures match ImportHeaders(old(headers), journals, rows, skipExisting)
              case Ok(st) => error == None && headers == st.headers && byNumber == st.byNumber
              case Err(e) => error == Some(e)
                             && HeadersStopped(old(headers), journals, rows, skipExisting, headers, e)
    {
      ghost var start := headers;
      byNumber := map[];
      for i := 0 to |journals|
        invariant ImportHeaders(start, journals[..i], rows, skipExisting) == Ok(HeaderState(headers, byNumber))
      {
        assert journals[..i + 1][..i] == journals[..i];
        var totals := ComputeTotals(journals[i].number, rows);
        var step := UpsertHeader(HeaderState(headers, byNumber), journals[i], totals, skipExisting);
        if step.Err? {
          HeadersFailForGood(start, journals, rows, skipExisting, i + 1);
          return Some(step.error), byNumber;
        }
        headers, byNumber := step.value.headers, step.value.byNumber;
      }
      assert journals[..|journals|] == journals;
      return None, byNumber;
    }

    method WriteLines(byNumber: map<string, Id>, rows: seq<JournalLineRow>) returns (error: Option<LedgerError>)
      modifies this`lines
      ensures match CreateLines(old(lines), byNumber, rows)
              case Ok(all) => error == None && lines == all
              case Err(e) => error == Some(e) && LinesStopped(old(lines), byNumber, rows, lines, e)
    {
      ghost var kept := lines;
      for i := 0 to |rows|
        invariant CreateLines(kept, byNumber, rows[..i]) == Ok(lines)
      {
        assert rows[..i + 1][..i] == rows[..i];
        var step := CreateLine(lines, byNumber, rows[i]);
        if step.Err? {
          LinesFailForGood(kept, byNumber, rows, i + 1);
          return Some(step.error);
        }
        lines := step.value;
      }
      assert rows[..|rows|] == rows;
      return None;
    }

    method Import(journals: seq<JournalRow>, rows: seq<JournalLineRow>, skipExisting: bool)
      returns (error: Option<LedgerError>)
      modifies this
      ensures match ImportJournals(old(Contents()), journals, rows, skipExisting)
              case Ok(db) => error == None && Contents() == db
              case Err(e) => error == Some(e)
                             && ImportStopped(old(Contents()), journals, rows, skipExisting, Contents(), e)
    {
      var byNumber;
      error, byNumber := WriteHeaders(journals, rows, skipExisting);
      if error.Some? {
        return;
      }
      lines := LinesOutside(lines, byNumber.Values);
      error := WriteLines(byNumber, rows);
    }
  }
}
