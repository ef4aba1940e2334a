/** The journal import in the fields of files and tables: what each row of the file has become, with
    its id written out, the sums over stored lines, and the error a failing import ends with. */
module LedgerOutcome {
  import opened Prelude
  import opened Keys
  import opened Money
  import opened OwnedRows
  import opened Validator
  import opened ValidatorLaws
  import opened PackMeaning
  import opened Ledger
  import opened LedgerLaws

  // ---------- Totals ----------

  /** What the importer counts as credit: every line of the journal that is not a debit. */
  function OtherThanDebit(number: string, lines: seq<JournalLineRow>): int {
    SumWhere((l: JournalLineRow) => l.journal == number && l.direction != "DEBIT",
             (l: JournalLineRow) => Cents(l.amount), lines)
  }

  /** The importer's totals of a journal, for any lines, as sums over the file. */
  lemma {:induction false} ImporterTotalsSpelled(number: string, lines: seq<JournalLineRow>)
    ensures ImporterSides(number, lines).debit == SideTotal(number, "DEBIT", lines)
    ensures ImporterSides(number, lines).credit == OtherThanDebit(number, lines)
  {
    if lines != [] {
      ImporterTotalsSpelled(number, lines[..|lines| - 1]);
    }
  }

  /** What the stored lines of a header come to on one side. */
  function StoredSide(headerId: Id, direction: string, lines: seq<LedgerLine>): int {
    SumWhere((l: LedgerLine) => l.headerId == headerId && l.direction == direction, (l: LedgerLine) => l.amount, lines)
  }

  lemma StoredSidesSpelled(id: Id, lines: seq<LedgerLine>)
    ensures StoredSides(id, lines) == Sides(StoredSide(id, "DEBIT", lines), StoredSide(id, "CREDIT", lines))
  {
    StoredSideIsFilter(id, DEBIT, lines);
    StoredSideIsFilter(id, CREDIT, lines);
  }

  lemma StoredSideIsFilter(id: Id, direction: string, lines: seq<LedgerLine>)
    ensures Total((id, direction), Map(Stored, lines)) == StoredSide(id, direction, lines)
  {
    KeyedSumIsFilter(Stored, (id, direction), (l: LedgerLine) => l.headerId == id && l.direction == direction,
                     (l: LedgerLine) => l.amount, lines);
  }

  lemma PackSidesSpelled(number: string, rows: seq<JournalLineRow>)
    ensures PackSides(number, rows) == Sides(SideTotal(number, "DEBIT", rows), SideTotal(number, "CREDIT", rows))
  {
    SideIsFilter(number, DEBIT, rows);
    SideIsFilter(number, CREDIT, rows);
  }

  // ---------- Headers ----------

  /** The header of a journal: stored ones keep their id, and in skip mode their totals; new ones
      get an id made of the number. */
  predicate HeaderWritten(
    before: Headers, after: Headers, j: JournalRow, lines: seq<JournalLineRow>, skipExisting: bool)
  {
    var key := (j.org, j.number);
    && key in after
    && (key in before ==> after[key].id == before[key].id)
    && (key !in before ==> after[key].id == StableId("journal:" + j.number))
    && (key in before && skipExisting ==> after[key] == before[key])
    && (key !in before || !skipExisting ==>
          && after[key].debit == SideTotal(j.number, "DEBIT", lines)
          && after[key].credit == OtherThanDebit(j.number, lines))
  }

  /** After an import that goes through, every journal of the file has its header so, and every
      other header is as it was. */
  lemma {:induction false} HeadersStoredAsFiled(
    db: LedgerDb, journals: seq<JournalRow>, rows: seq<JournalLineRow>, skipExisting: bool)
    requires ImportJournals(db, journals, rows, skipExisting).Ok?
    ensures var after := ImportJournals(db, journals, rows, skipExisting).value.headers;
            && (forall i :: 0 <= i < |journals| ==> HeaderWritten(db.headers, after, journals[i], rows, skipExisting))
            && (forall key :: key in after ==> key in db.headers || HasRow(journals, key))
            && (forall key :: key in db.headers ==>
                  key in after && (!HasRow(journals, key) ==> after[key] == db.headers[key]))
  {
    var after := ImportJournals(db, journals, rows, skipExisting).value.headers;
    forall i | 0 <= i < |journals| ensures HeaderWritten(db.headers, after, journals[i], rows, skipExisting) {
      assert HasRow(journals, RowKey(journals[i]));
      HeadersClosedForm(db.headers, journals, rows, skipExisting, RowKey(journals[i]));
      ImporterTotalsSpelled(journals[i].number, rows);
    }
    forall key ensures key in after <==> key in db.headers || HasRow(journals, key)
               ensures key in db.headers && !HasRow(journals, key) ==> after[key] == db.headers[key] {
      HeadersClosedForm(db.headers, journals, rows, skipExisting, key);
    }
  }

  // ---------- Lines ----------

  /** The line is stored with its id, under the header of the last organization that lists its
      journal, with its direction and its amount in cents. */
  predicate IsFiledLine(s: LedgerLine, headers: Headers, journals: seq<JournalRow>, l: JournalLineRow) {
    var owner := Owner(journals, l.journal);
    && s.id == LineId(l) && s.direction == l.direction && s.amount == Cents(l.amount)
    && owner.Some? && (owner.value, l.journal) in headers
    && s.headerId == headers[(owner.value, l.journal)].id
  }

  /** The id of a line is made of its five cells. */
  lemma {:induction false} LineIdSpelled(l: JournalLineRow)
    ensures LineId(l) == StableId("journal-line:" + l.journal + ":" + l.direction + ":" + l.account
                                  + ":" + l.amount + ":" + l.memo)
  {
    JoinFive(l.journal, l.direction, l.account, l.amount, l.memo, [COLON]);
    var text := l.journal + [COLON] + l.direction + [COLON] + l.account + [COLON] + l.amount + [COLON] + l.memo;
    assert LINE_LABEL + text ==
      "journal-line:" + l.journal + ":" + l.direction + ":" + l.account + ":" + l.amount + ":" + l.memo;
  }

  function LineFrom(byNumber: map<string, Id>, l: JournalLineRow): LedgerLine
    requires l.journal in byNumber
  {
    LedgerLine(LineId(l), byNumber[l.journal], l.direction, Cents(l.amount))
  }

  function LinesFrom(byNumber: map<string, Id>, rows: seq<JournalLineRow>): seq<LedgerLine>
    requires JournalsKnown(byNumber, rows)
  {
    seq(|rows|, i requires 0 <= i < |rows| => LineFrom(byNumber, rows[i]))
  }

  lemma {:induction false} CreatedLines(kept: seq<LedgerLine>, byNumber: map<string, Id>, rows: seq<JournalLineRow>)
    requires CreateLines(kept, byNumber, rows).Ok?
    ensures JournalsKnown(byNumber, rows)
    ensures CreateLines(kept, byNumber, rows).value == kept + LinesFrom(byNumber, rows)
  {
    if rows != [] {
      var n := |rows| - 1;
      CreatedLines(kept, byNumber, rows[..n]);
      assert rows == rows[..n] + [rows[n]];
      assert LinesFrom(byNumber, rows) == LinesFrom(byNumber, rows[..n]) + [LineFrom(byNumber, rows[n])];
    }
  }

  /** These lines are the file's, in order. */
  predicate LinesFiled(filed: seq<LedgerLine>, headers: Headers, journals: seq<JournalRow>, rows: seq<JournalLineRow>) {
    |filed| == |rows| && forall i :: 0 <= i < |rows| ==> IsFiledLine(filed[i], headers, journals, rows[i])
  }

  /** These are the stored lines of the headers that the file does not rewrite. */
  ghost predicate LinesKept(db: LedgerDb, journals: seq<JournalRow>, lines: seq<LedgerLine>) {
    forall l :: l in lines <==> l in db.lines && !IsRewritten(db.headers, journals, l.headerId)
  }

  lemma KeptLines(db: LedgerDb, journals: seq<JournalRow>, rows: seq<JournalLineRow>, skipExisting: bool)
    requires ImportHeaders(db.headers, journals, rows, skipExisting).Ok?
    ensures var ids := ImportHeaders(db.headers, journals, rows, skipExisting).value.byNumber.Values;
            LinesKept(db, journals, LinesOutside(db.lines, ids))
  {
    var ids := ImportHeaders(db.headers, journals, rows, skipExisting).value.byNumber.Values;
    OutsideLinesExactly(db.lines, ids);
    forall l ensures l in LinesOutside(db.lines, ids) <==>
                       l in db.lines && !IsRewritten(db.headers, journals, l.headerId)
    {
      LookupHoldsRewritten(db.headers, journals, rows, skipExisting, l.headerId);
    }
  }

  lemma OneLineFiled(
    db: LedgerDb, journals: seq<JournalRow>, rows: seq<JournalLineRow>, skipExisting: bool, l: JournalLineRow)
    requires ImportHeaders(db.headers, journals, rows, skipExisting).Ok?
    requires l.journal in ImportHeaders(db.headers, journals, rows, skipExisting).value.byNumber
    ensures var st := ImportHeaders(db.headers, journals, rows, skipExisting).value;
            IsFiledLine(LineFrom(st.byNumber, l), st.headers, journals, l)
  {
    LookupLeadsToOwner(db.headers, journals, rows, skipExisting, l.journal);
  }

  /** The lines table after an import that goes through: the lines of headers the file does not
      rewrite, and then the file's lines. */
  lemma {:induction false} LinesStoredAsFiled(
    db: LedgerDb, journals: seq<JournalRow>, rows: seq<JournalLineRow>, skipExisting: bool)
    requires ImportJournals(db, journals, rows, skipExisting).Ok?
    ensures var after := ImportJournals(db, journals, rows, skipExisting).value;
            var n := |after.lines| - |rows|;
            && n >= 0 && LinesKept(db, journals, after.lines[..n])
            && LinesFiled(after.lines[n..], after.headers, journals, rows)
  {
    var st := ImportHeaders(db.headers, journals, rows, skipExisting).value;
    var kept := LinesOutside(db.lines, st.byNumber.Values);
    KeptLines(db, journals, rows, skipExisting);
    CreatedLines(kept, st.byNumber, rows);
    forall i | 0 <= i < |rows|
      ensures IsFiledLine(LinesFrom(st.byNumber, rows)[i], st.headers, journals, rows[i])
    {
      OneLineFiled(db, journals, rows, skipExisting, rows[i]);
    }
    assert (kept + LinesFrom(st.byNumber, rows))[..|kept|] == kept;
    assert (kept + LinesFrom(st.byNumber, rows))[|kept|..] == LinesFrom(st.byNumber, rows);
  }

  // ---------- Balance, in stored fields ----------

  /** The number belongs to one organization only. */
  predicate NumberUnique(journals: seq<JournalRow>, i: nat)
    requires i < |journals|
  {
    forall k :: 0 <= k < |journals| && journals[k].number == journals[i].number ==> journals[k].org == journals[i].org
  }

  /** The header is stored; its stored lines come to the same on both sides, and to the file's sums. */
  predicate LinesBalance(db: LedgerDb, j: JournalRow, rows: seq<JournalLineRow>) {
    var key := (j.org, j.number);
    && key in db.headers
    && StoredSide(db.headers[key].id, "DEBIT", db.lines) == StoredSide(db.headers[key].id, "CREDIT", db.lines)
    && StoredSide(db.headers[key].id, "DEBIT", db.lines) == SideTotal(j.number, "DEBIT", rows)
  }

  /** And it states that sum as both of its totals. */
  predicate HeaderStatesSums(db: LedgerDb, j: JournalRow, rows: seq<JournalLineRow>) {
    var key := (j.org, j.number);
    key in db.headers && db.headers[key].debit == SideTotal(j.number, "DEBIT", rows) == db.headers[key].credit
  }

  /** An accepted ledger in the store, in either mode: a journal whose number one organization has
      balances in its stored lines, and its header states their sums if it is new or updated. */
  lemma {:induction false} JournalStoredAsFiled(
    db: LedgerDb, journals: seq<JournalRow>, rows: seq<JournalLineRow>, skipExisting: bool, i: nat)
    requires ValidHeaders(db.headers) && LedgerAccepted(Map(Posting, rows))
    requires ImportJournals(db, journals, rows, skipExisting).Ok? && i < |journals|
    ensures var after := ImportJournals(db, journals, rows, skipExisting).value;
            var key := (journals[i].org, journals[i].number);
            && (NumberUnique(journals, i) ==> LinesBalance(after, journals[i], rows))
            && (skipExisting && key in db.headers ==> key in after.headers && after.headers[key] == db.headers[key])
            && (!skipExisting || key !in db.headers ==> HeaderStatesSums(after, journals[i], rows))
  {
    var after := ImportJournals(db, journals, rows, skipExisting).value;
    var number, key := journals[i].number, RowKey(journals[i]);
    HeadersClosedForm(db.headers, journals, rows, skipExisting, key);
    assert HasRow(journals, key);
    ImporterTotalsAreThePacks(number, rows);
    AcceptedLedgerBalancesEverywhere(number, Map(Posting, rows));
    PackSidesSpelled(number, rows);
    if NumberUnique(journals, i) {
      RowHasOwner(journals, i);
      OwnerHasRow(journals, number);
      StoredLinesOfHeader(db, journals, rows, skipExisting, key);
      StoredSidesSpelled(after.headers[key].id, after.lines);
    }
  }

  // ---------- Unique keys ----------

  predicate LineIdsDistinct(lines: seq<LedgerLine>) {
    forall i, j :: 0 <= i < j < |lines| ==> lines[i].id != lines[j].id
  }

  /** No id is stored twice, of headers or of lines. */
  predicate LedgerKeysHold(db: LedgerDb) {
    ValidHeaders(db.headers) && LineIdsDistinct(db.lines)
  }

  lemma {:induction false} OutsideKeepsIdsDistinct(lines: seq<LedgerLine>, headerIds: set<Id>)
    requires LineIdsDistinct(lines)
    ensures LineIdsDistinct(LinesOutside(lines, headerIds))
  {
    if lines != [] {
      var n := |lines| - 1;
      var outside := LinesOutside(lines[..n], headerIds);
      OutsideKeepsIdsDistinct(lines[..n], headerIds);
      OutsideLinesExactly(lines[..n], headerIds);
      forall i | 0 <= i < |outside| ensures outside[i].id != lines[n].id {
        assert outside[i] in lines[..n];
      }
    }
  }

  lemma {:induction false} CreatedKeepIdsDistinct(
    kept: seq<LedgerLine>, byNumber: map<string, Id>, rows: seq<JournalLineRow>)
    requires LineIdsDistinct(kept) && CreateLines(kept, byNumber, rows).Ok?
    ensures LineIdsDistinct(CreateLines(kept, byNumber, rows).value)
  {
    if rows != [] {
      CreatedKeepIdsDistinct(kept, byNumber, rows[..|rows| - 1]);
    }
  }

  /** Safety of every journal import, whether it goes through or stops somewhere: no id is ever
      stored twice. */
  lemma {:induction false} LedgerKeepsUniqueKeys(
    db: LedgerDb, journals: seq<JournalRow>, rows: seq<JournalLineRow>, skipExisting: bool,
    after: LedgerDb, error: LedgerError)
    requires LedgerKeysHold(db)
    requires ImportJournals(db, journals, rows, skipExisting) == Ok(after)
          || ImportStopped(db, journals, rows, skipExisting, after, error)
    ensures LedgerKeysHold(after)
  {
    var all := ImportHeaders(db.headers, journals, rows, skipExisting);
    if all.Err? {
      var n, byNumber :| 0 <= n < |journals|
        && ImportHeaders(db.headers, journals[..n], rows, skipExisting) == Ok(HeaderState(after.headers, byNumber));
      HeadersStayValid(db.headers, journals[..n], rows, skipExisting);
    } else {
      var st := all.value;
      var kept := LinesOutside(db.lines, st.byNumber.Values);
      HeadersStayValid(db.headers, journals, rows, skipExisting);
      OutsideKeepsIdsDistinct(db.lines, st.byNumber.Values);
      var n :| 0 <= n <= |rows| && CreateLines(kept, st.byNumber, rows[..n]) == Ok(after.lines) by {
        assert rows[..|rows|] == rows;
      }
      CreatedKeepIdsDistinct(kept, st.byNumber, rows[..n]);
    }
  }

  // ---------- Errors ----------

  lemma {:induction false} HeadersFailTaken(
    headers: Headers, journals: seq<JournalRow>, lines: seq<JournalLineRow>, skipExisting: bool)
    ensures ImportHeaders(headers, journals, lines, skipExisting).Err? ==>
              ImportHeaders(headers, journals, lines, skipExisting).error == IdTaken
  {
    if journals != [] {
      HeadersFailTaken(headers, journals[..|journals| - 1], lines, skipExisting);
    }
  }

  /** The first line that cannot be created is for an unknown journal. */
  predicate StopsUnknown(kept: seq<LedgerLine>, byNumber: map<string, Id>, rows: seq<JournalLineRow>) {
    exists n :: 0 <= n < |rows| && CreateLines(kept, byNumber, rows[..n]).Ok? && rows[n].journal !in byNumber
  }

  lemma StopsUnknownSnoc(kept: seq<LedgerLine>, byNumber: map<string, Id>, rows: seq<JournalLineRow>)
    requires rows != []
    ensures var n := |rows| - 1;
            StopsUnknown(kept, byNumber, rows) <==>
              || StopsUnknown(kept, byNumber, rows[..n])
              || (CreateLines(kept, byNumber, rows[..n]).Ok? && rows[n].journal !in byNumber)
  {
    var n := |rows| - 1;
    forall k | 0 <= k < n ensures rows[..n][..k] == rows[..k] && rows[..n][k] == rows[k] {
    }
    if k :| 0 <= k < n && CreateLines(kept, byNumber, rows[..n][..k]).Ok? && rows[..n][k].journal !in byNumber {
      assert CreateLines(kept, byNumber, rows[..k]).Ok? && rows[k].journal !in byNumber;
    }
  }

  lemma {:induction false} LinesFailUnknownIff(
    kept: seq<LedgerLine>, byNumber: map<string, Id>, rows: seq<JournalLineRow>)
    ensures CreateLines(kept, byNumber, rows) == Err(UnknownJournal) <==> StopsUnknown(kept, byNumber, rows)
  {
    if rows != [] {
      LinesFailUnknownIff(kept, byNumber, rows[..|rows| - 1]);
      StopsUnknownSnoc(kept, byNumber, rows);
      if CreateLines(kept, byNumber, rows[..|rows| - 1]).Ok? {
        assert !StopsUnknown(kept, byNumber, rows[..|rows| - 1]);
      }
    }
  }

  lemma CreatableIffWritable(
    db: LedgerDb, journals: seq<JournalRow>, rows: seq<JournalLineRow>, skipExisting: bool, n: nat)
    requires ImportHeaders(db.headers, journals, rows, skipExisting).Ok? && n <= |rows|
    ensures var byNumber := ImportHeaders(db.headers, journals, rows, skipExisting).value.byNumber;
            CreateLines(LinesOutside(db.lines, byNumber.Values), byNumber, rows[..n]).Ok? <==>
              LinesWritable(db, journals, rows[..n])
  {
    var byNumber := ImportHeaders(db.headers, journals, rows, skipExisting).value.byNumber;
    var kept, ids := LinesOutside(db.lines, byNumber.Values), Map(LineId, rows[..n]);
    LinesSucceedIff(kept, byNumber, rows[..n]);
    forall i | 0 <= i < n
      ensures rows[..n][i].journal in byNumber <==> Owner(journals, rows[..n][i].journal).Some?
      ensures LineHeld(kept, ids[i]) <==> LineHeldElsewhere(db, journals, LineId(rows[..n][i]))
    {
      LookupLeadsToOwner(db.headers, journals, rows, skipExisting, rows[i].journal);
      KeptLinesAreElsewhere(db, journals, rows, skipExisting, LineId(rows[i]));
    }
  }

  /** The error, from the inputs alone: an unknown journal stops the import exactly when the headers
      are writable and so are the lines before one whose journal is not listed. In any other case
      that does not go through, an id was taken. */
  lemma {:induction false} JournalsFailUnknownIff(
    db: LedgerDb, journals: seq<JournalRow>, rows: seq<JournalLineRow>, skipExisting: bool)
    ensures ImportJournals(db, journals, rows, skipExisting) == Err(UnknownJournal) <==>
              AllWritable(db.headers, journals)
              && exists n :: 0 <= n < |rows| && LinesWritable(db, journals, rows[..n])
                             && Owner(journals, rows[n].journal).None?
  {
    HeadersSucceedIff(db.headers, journals, rows, skipExisting);
    HeadersFailTaken(db.headers, journals, rows, skipExisting);
    if ImportHeaders(db.headers, journals, rows, skipExisting).Ok? {
      var byNumber := ImportHeaders(db.headers, journals, rows, skipExisting).value.byNumber;
      var kept := LinesOutside(db.lines, byNumber.Values);
      LinesFailUnknownIff(kept, byNumber, rows);
      forall n | 0 <= n < |rows|
        ensures CreateLines(kept, byNumber, rows[..n]).Ok? && rows[n].journal !in byNumber <==>
                  LinesWritable(db, journals, rows[..n]) && Owner(journals, rows[n].journal).None?
      {
        CreatableIffWritable(db, journals, rows, skipExisting, n);
        LookupLeadsToOwner(db.headers, journals, rows, skipExisting, rows[n].journal);
      }
    }
  }
}
