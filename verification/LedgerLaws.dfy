/** What the journal import leaves in the store: header totals against the lines stored. */
module LedgerLaws {
  import opened Prelude
  import opened Keys
  import opened Money
  import opened Validator
  import opened ValidatorLaws
  import opened OwnedRows
  import opened Ledger

  function Stored(l: LedgerLine): Entry<(Id, string)> {
    Entry((l.headerId, l.direction), Some(l.amount))
  }

  /** Filter and sum over the stored lines of one header. */
  function StoredSides(headerId: Id, lines: seq<LedgerLine>): Sides {
    Sides(Total((headerId, DEBIT), Map(Stored, lines)), Total((headerId, CREDIT), Map(Stored, lines)))
  }

  function PackSides(number: string, rows: seq<JournalLineRow>): Sides {
    SidesOf(number, Map(Posting, rows))
  }

  lemma SidesSnoc(number: string, rows: seq<JournalLineRow>)
    requires rows != []
    ensures var l := rows[|rows| - 1];
            PackSides(number, rows) ==
              if l.journal == number then WithLine(PackSides(number, rows[..|rows| - 1]), Posting(l))
              else PackSides(number, rows[..|rows| - 1])
  {
    MapSnoc(Posting, rows);
  }

  /** Two folds, one meaning: on lines that are all debits or credits the importer's totals
      are the validator's. */
  lemma {:induction false} ImporterTotalsAreThePacks(number: string, rows: seq<JournalLineRow>)
    requires LinesReadable(Map(Posting, rows))
    ensures ImporterSides(number, rows) == PackSides(number, rows)
  {
    if rows != [] {
      var n := |rows| - 1;
      assert forall i :: 0 <= i < n ==> Map(Posting, rows[..n])[i] == Map(Posting, rows)[i];
      ImporterTotalsAreThePacks(number, rows[..n]);
      SidesSnoc(number, rows);
      assert LineIsReadable(Map(Posting, rows)[n]);
      CentsAreValues(rows[n].amount);
    }
  }

  // ---------- Headers ----------

  /** The primary key: no id is stored twice. */
  predicate ValidHeaders(headers: Headers) {
    forall a, b :: a in headers && b in headers && headers[a].id == headers[b].id ==> a == b
  }

  predicate HasRow(journals: seq<JournalRow>, key: HeaderKey) {
    exists i :: 0 <= i < |journals| && RowKey(journals[i]) == key
  }

  /** The header of a key of the file, after the import. */
  function HeaderAfter(headers: Headers, key: HeaderKey, lines: seq<JournalLineRow>, skipExisting: bool): Header {
    var totals := ImporterSides(key.1, lines);
    if key !in headers then Header(JournalId(key.1), totals.debit, totals.credit)
    else if skipExisting then headers[key]
    else Header(headers[key].id, totals.debit, totals.credit)
  }

  lemma HasRowSnoc(journals: seq<JournalRow>, key: HeaderKey)
    requires journals != []
    ensures HasRow(journals, key) <==>
              HasRow(journals[..|journals| - 1], key) || RowKey(journals[|journals| - 1]) == key
  {
    var n := |journals| - 1;
    if i :| 0 <= i < n && RowKey(journals[..n][i]) == key {
      assert RowKey(journals[i]) == key;
    }
    if i :| 0 <= i < |journals| && RowKey(journals[i]) == key {
      assert i < n ==> RowKey(journals[..n][i]) == key;
    }
  }

  lemma {:induction false} HeadersClosedForm(
    headers: Headers, journals: seq<JournalRow>, lines: seq<JournalLineRow>, skipExisting: bool, key: HeaderKey)
    requires ImportHeaders(headers, journals, lines, skipExisting).Ok?
    ensures var after := ImportHeaders(headers, journals, lines, skipExisting).value.headers;
            && (key in after <==> key in headers || HasRow(journals, key))
            && (key in after ==>
                  after[key] == if HasRow(journals, key) then HeaderAfter(headers, key, lines, skipExisting)
                                else headers[key])
  {
    if journals != [] {
      HeadersClosedForm(headers, journals[..|journals| - 1], lines, skipExisting, key);
      HasRowSnoc(journals, key);
    }
  }

  lemma {:induction false} HeadersStayValid(
    headers: Headers, journals: seq<JournalRow>, lines: seq<JournalLineRow>, skipExisting: bool)
    requires ValidHeaders(headers) && ImportHeaders(headers, journals, lines, skipExisting).Ok?
    ensures ValidHeaders(ImportHeaders(headers, journals, lines, skipExisting).value.headers)
  {
    if journals != [] {
      HeadersStayValid(headers, journals[..|journals| - 1], lines, skipExisting);
    }
  }

  // ---------- When the headers go through ----------

  /** The id of a header of the file, known before the import: the stored one, or the new one. */
  function StartingId(headers: Headers, key: HeaderKey): Id {
    if key in headers then headers[key].id else JournalId(key.1)
  }

  /** Another organization's new header in these rows has the number. */
  predicate SharesNewNumber(headers: Headers, journals: seq<JournalRow>, j: JournalRow) {
    exists i :: 0 <= i < |journals| && RowKey(journals[i]) !in headers
                && journals[i].number == j.number && journals[i].org != j.org
  }

  /** The header of the row is stored, or the id it is to be created under is free. */
  predicate Writable(headers: Headers, journals: seq<JournalRow>, j: JournalRow) {
    RowKey(j) in headers || (!HeaderIdTaken(headers, JournalId(j.number)) && !SharesNewNumber(headers, journals, j))
  }

  predicate AllWritable(headers: Headers, journals: seq<JournalRow>) {
    forall i :: 0 <= i < |journals| ==> Writable(headers, journals, journals[i])
  }

  lemma AllWritableSnoc(headers: Headers, init: seq<JournalRow>, j: JournalRow)
    ensures AllWritable(headers, init + [j]) <==> AllWritable(headers, init) && Writable(headers, init, j)
  {
    var all := init + [j];
    assert all[|init|] == j && forall i :: 0 <= i < |init| ==> all[i] == init[i];
    if AllWritable(headers, all) {
      forall i | 0 <= i < |init| ensures Writable(headers, init, init[i]) {
        assert Writable(headers, all, all[i]);
      }
      assert Writable(headers, all, all[|init|]);
    }
    if AllWritable(headers, init) && Writable(headers, init, j) {
      forall i | 0 <= i < |all| ensures Writable(headers, all, all[i]) {
        assert i < |init| ==> Writable(headers, init, init[i]);
      }
    }
  }

  lemma JournalIdInjective(a: string, b: string)
    requires JournalId(a) == JournalId(b)
    ensures a == b
  {
    assert a == (JOURNAL_LABEL + a)[|JOURNAL_LABEL|..] && b == (JOURNAL_LABEL + b)[|JOURNAL_LABEL|..];
  }

  /** The id that one more new header would get is taken exactly when it was taken at the start, or
      a row before it created a header under the number. */
  lemma NewIdTakenIff(
    headers: Headers, journals: seq<JournalRow>, lines: seq<JournalLineRow>, skipExisting: bool, j: JournalRow)
    requires ImportHeaders(headers, journals, lines, skipExisting).Ok?
    requires RowKey(j) !in headers && !HasRow(journals, RowKey(j))
    ensures HeaderIdTaken(ImportHeaders(headers, journals, lines, skipExisting).value.headers, JournalId(j.number))
       <==> HeaderIdTaken(headers, JournalId(j.number)) || SharesNewNumber(headers, journals, j)
  {
    var after := ImportHeaders(headers, journals, lines, skipExisting).value.headers;
    forall key ensures key in after <==> key in headers || HasRow(journals, key)
               ensures key in after ==> after[key].id == StartingId(headers, key) {
      HeadersClosedForm(headers, journals, lines, skipExisting, key);
    }
    if key :| key in after && after[key].id == JournalId(j.number) && key !in headers {
      JournalIdInjective(key.1, j.number);
      var i :| 0 <= i < |journals| && RowKey(journals[i]) == key;
      assert HasRow(journals, key) && journals[i].number == j.number;
    }
    if key :| key in headers && headers[key].id == JournalId(j.number) {
      assert key in after;
    }
    if i :| 0 <= i < |journals| && RowKey(journals[i]) !in headers
            && journals[i].number == j.number && journals[i].org != j.org {
      assert HasRow(journals, RowKey(journals[i]));
      assert RowKey(journals[i]) in after;
    }
  }

  /** Into any store the headers go through exactly when, for every header that is not stored, the
      id derived from its number is free and no other organization's new header has the number. */
  lemma {:induction false} HeadersSucceedIff(
    headers: Headers, journals: seq<JournalRow>, lines: seq<JournalLineRow>, skipExisting: bool)
    ensures ImportHeaders(headers, journals, lines, skipExisting).Ok? <==> AllWritable(headers, journals)
  {
    if journals != [] {
      var init, j := journals[..|journals| - 1], journals[|journals| - 1];
      HeadersSucceedIff(headers, init, lines, skipExisting);
      assert journals == init + [j];
      AllWritableSnoc(headers, init, j);
      if ImportHeaders(headers, init, lines, skipExisting).Ok? {
        HeadersClosedForm(headers, init, lines, skipExisting, RowKey(j));
        if HasRow(init, RowKey(j)) {
          var i :| 0 <= i < |init| && RowKey(init[i]) == RowKey(j);
          assert Writable(headers, init, init[i]);
        } else if RowKey(j) !in headers {
          NewIdTakenIff(headers, init, lines, skipExisting, j);
        }
      }
    }
  }

  // ---------- Which header owns a number ----------

  /** The organization of the last row with this number, if there is one. */
  function Owner(journals: seq<JournalRow>, number: string): Option<string> {
    if journals == [] then None
    else
      var last := journals[|journals| - 1];
      if last.number == number then Some(last.org) else Owner(journals[..|journals| - 1], number)
  }

  lemma {:induction false} OwnerHasRow(journals: seq<JournalRow>, number: string)
    requires Owner(journals, number).Some?
    ensures HasRow(journals, (Owner(journals, number).value, number))
  {
    var n := |journals| - 1;
    if journals[n].number == number {
      assert RowKey(journals[n]) == (Owner(journals, number).value, number);
    } else {
      OwnerHasRow(journals[..n], number);
      HasRowSnoc(journals, (Owner(journals, number).value, number));
    }
  }

  lemma {:induction false} RowHasOwner(journals: seq<JournalRow>, i: nat)
    requires i < |journals|
    ensures Owner(journals, journals[i].number).Some?
  {
    var n := |journals| - 1;
    if i < n {
      RowHasOwner(journals[..n], i);
    }
  }

  /** The lookup by number leads to the header of the last row with that number. */
  lemma {:induction false} LookupLeadsToOwner(
    headers: Headers, journals: seq<JournalRow>, lines: seq<JournalLineRow>, skipExisting: bool, number: string)
    requires ImportHeaders(headers, journals, lines, skipExisting).Ok?
    ensures var st, owner := ImportHeaders(headers, journals, lines, skipExisting).value, Owner(journals, number);
            && (number in st.byNumber <==> owner.Some?)
            && (owner.Some? ==> (owner.value, number) in st.headers
                                && st.byNumber[number] == st.headers[(owner.value, number)].id)
  {
    if journals != [] {
      LookupLeadsToOwner(headers, journals[..|journals| - 1], lines, skipExisting, number);
    }
  }

  // ---------- Lines ----------

  function Plus(a: Sides, direction: string, amount: int): Sides {
    Sides(a.debit + (if direction == DEBIT then amount else 0), a.credit + (if direction == CREDIT then amount else 0))
  }

  lemma StoredSidesSnoc(id: Id, lines: seq<LedgerLine>, l: LedgerLine)
    ensures StoredSides(id, lines + [l]) ==
              if l.headerId == id then Plus(StoredSides(id, lines), l.direction, l.amount) else StoredSides(id, lines)
  {
    var all := lines + [l];
    MapSnoc(Stored, all);
    assert all[..|lines|] == lines;
  }

  lemma {:induction false} OutsideSides(id: Id, lines: seq<LedgerLine>, headerIds: set<Id>)
    ensures StoredSides(id, LinesOutside(lines, headerIds)) ==
              if id in headerIds then Sides(0, 0) else StoredSides(id, lines)
  {
    if lines != [] {
      var init, last := lines[..|lines| - 1], lines[|lines| - 1];
      OutsideSides(id, init, headerIds);
      assert lines == init + [last];
      StoredSidesSnoc(id, init, last);
      StoredSidesSnoc(id, LinesOutside(init, headerIds), last);
      assert LinesOutside(init, headerIds) + [] == LinesOutside(init, headerIds);
    }
  }

  predicate InjectiveLookup(byNumber: map<string, Id>) {
    forall a, b :: a in byNumber && b in byNumber && byNumber[a] == byNumber[b] ==> a == b
  }

  lemma PackSidesSnoc(number: string, rows: seq<JournalLineRow>)
    requires rows != []
    ensures var l, before := rows[|rows| - 1], PackSides(number, rows[..|rows| - 1]);
            PackSides(number, rows) ==
              if l.journal == number then Plus(before, l.direction, Cents(l.amount)) else before
  {
    SidesSnoc(number, rows);
    CentsAreValues(rows[|rows| - 1].amount);
  }

  /** The lines created for a header are exactly the file's lines for its number. */
  lemma {:induction false} CreatedSides(
    kept: seq<LedgerLine>, byNumber: map<string, Id>, rows: seq<JournalLineRow>, number: string)
    requires CreateLines(kept, byNumber, rows).Ok?
    requires InjectiveLookup(byNumber) && number in byNumber && StoredSides(byNumber[number], kept) == Sides(0, 0)
    ensures StoredSides(byNumber[number], CreateLines(kept, byNumber, rows).value) == PackSides(number, rows)
  {
    if rows != [] {
      var l := rows[|rows| - 1];
      CreatedSides(kept, byNumber, rows[..|rows| - 1], number);
      StoredSidesSnoc(byNumber[number], CreateLines(kept, byNumber, rows[..|rows| - 1]).value,
                      LedgerLine(LineId(l), byNumber[l.journal], l.direction, Cents(l.amount)));
      PackSidesSnoc(number, rows);
    }
  }

  lemma {:induction false} OtherHeadersGetNoLines(
    kept: seq<LedgerLine>, byNumber: map<string, Id>, rows: seq<JournalLineRow>, id: Id)
    requires CreateLines(kept, byNumber, rows).Ok? && id !in byNumber.Values
    ensures StoredSides(id, CreateLines(kept, byNumber, rows).value) == StoredSides(id, kept)
  {
    if rows != [] {
      var l := rows[|rows| - 1];
      OtherHeadersGetNoLines(kept, byNumber, rows[..|rows| - 1], id);
      StoredSidesSnoc(id, CreateLines(kept, byNumber, rows[..|rows| - 1]).value,
                      LedgerLine(LineId(l), byNumber[l.journal], l.direction, Cents(l.amount)));
      assert byNumber[l.journal] in byNumber.Values;
    }
  }

  lemma {:induction false} CreatedLineIds(
    kept: seq<LedgerLine>, byNumber: map<string, Id>, rows: seq<JournalLineRow>, id: Id)
    requires CreateLines(kept, byNumber, rows).Ok?
    ensures LineHeld(CreateLines(kept, byNumber, rows).value, id) <==> LineHeld(kept, id) || id in Map(LineId, rows)
  {
    if rows != [] {
      var n := |rows| - 1;
      var before, after := CreateLines(kept, byNumber, rows[..n]).value, CreateLines(kept, byNumber, rows).value;
      CreatedLineIds(kept, byNumber, rows[..n], id);
      assert Map(LineId, rows) == Map(LineId, rows[..n]) + [LineId(rows[n])];
      assert forall k :: 0 <= k < |before| ==> after[k] == before[k];
      assert after[|before|].id == LineId(rows[n]);
    }
  }

  /** Lines whose fields hold no colon share an id only if they are the same line. */
  lemma {:induction false} LineIdIdentifies(a: JournalLineRow, b: JournalLineRow)
    requires FreeOf(COLON, [a.journal, a.direction, a.account, a.amount, a.memo])
    requires FreeOf(COLON, [b.journal, b.direction, b.account, b.amount, b.memo])
    ensures LineId(a) == LineId(b) <==> a == b
  {
    var p := [a.journal, a.direction, a.account, a.amount, a.memo];
    var q := [b.journal, b.direction, b.account, b.amount, b.memo];
    var s, t := Join(p, [COLON]), Join(q, [COLON]);
    assert s == (LINE_LABEL + s)[|LINE_LABEL|..] && t == (LINE_LABEL + t)[|LINE_LABEL|..];
    if s == t {
      JoinInjective(p, q, [COLON]);
      assert p[0] == q[0] && p[1] == q[1] && p[2] == q[2] && p[3] == q[3] && p[4] == q[4];
    }
  }

  predicate JournalsKnown(byNumber: map<string, Id>, rows: seq<JournalLineRow>) {
    forall i :: 0 <= i < |rows| ==> rows[i].journal in byNumber
  }

  predicate NoneHeld(kept: seq<LedgerLine>, ids: seq<Id>) {
    forall i :: 0 <= i < |ids| ==> !LineHeld(kept, ids[i])
  }

  /** Creating the lines goes through exactly when every line's journal is known and the line
      ids are new. */
  lemma {:induction false} LinesSucceedIff(kept: seq<LedgerLine>, byNumber: map<string, Id>, rows: seq<JournalLineRow>)
    ensures CreateLines(kept, byNumber, rows).Ok? <==>
              JournalsKnown(byNumber, rows) && NoneHeld(kept, Map(LineId, rows)) && Distinct(Map(LineId, rows))
  {
    if rows != [] {
      var n := |rows| - 1;
      var ids, last := Map(LineId, rows[..n]), LineId(rows[n]);
      LinesSucceedIff(kept, byNumber, rows[..n]);
      assert Map(LineId, rows) == ids + [last];
      DistinctSnoc(ids, last);
      NoneHeldSnoc(kept, ids, last);
      assert JournalsKnown(byNumber, rows) <==> JournalsKnown(byNumber, rows[..n]) && rows[n].journal in byNumber;
      if CreateLines(kept, byNumber, rows[..n]).Ok? {
        CreatedLineIds(kept, byNumber, rows[..n], last);
      }
    }
  }

  // ---------- When the whole step goes through ----------

  /** The id is that of a header whose lines the import rewrites: the last one of a number. */
  predicate IsRewritten(headers: Headers, journals: seq<JournalRow>, id: Id) {
    exists i :: 0 <= i < |journals| && Owner(journals, journals[i].number).Some?
                && id == StartingId(headers, (Owner(journals, journals[i].number).value, journals[i].number))
  }

  lemma LookupHoldsRewritten(
    headers: Headers, journals: seq<JournalRow>, lines: seq<JournalLineRow>, skipExisting: bool, id: Id)
    requires ImportHeaders(headers, journals, lines, skipExisting).Ok?
    ensures id in ImportHeaders(headers, journals, lines, skipExisting).value.byNumber.Values
       <==> IsRewritten(headers, journals, id)
  {
    var st := ImportHeaders(headers, journals, lines, skipExisting).value;
    if n :| n in st.byNumber && st.byNumber[n] == id {
      LookupLeadsToOwner(headers, journals, lines, skipExisting, n);
      OwnerHasRow(journals, n);
      HeadersClosedForm(headers, journals, lines, skipExisting, (Owner(journals, n).value, n));
      var i :| 0 <= i < |journals| && RowKey(journals[i]) == (Owner(journals, n).value, n);
      assert journals[i].number == n;
    }
    if i :| 0 <= i < |journals| && Owner(journals, journals[i].number).Some?
            && id == StartingId(headers, (Owner(journals, journals[i].number).value, journals[i].number)) {
      var n := journals[i].number;
      LookupLeadsToOwner(headers, journals, lines, skipExisting, n);
      OwnerHasRow(journals, n);
      HeadersClosedForm(headers, journals, lines, skipExisting, (Owner(journals, n).value, n));
      assert st.byNumber[n] in st.byNumber.Values;
    }
  }

  /** A line of a header that the import leaves alone holds this id. */
  predicate LineHeldElsewhere(db: LedgerDb, journals: seq<JournalRow>, id: Id) {
    exists k :: 0 <= k < |db.lines| && db.lines[k].id == id
                && !IsRewritten(db.headers, journals, db.lines[k].headerId)
  }

  lemma {:induction false} OutsideLinesExactly(lines: seq<LedgerLine>, headerIds: set<Id>)
    ensures forall l :: l in LinesOutside(lines, headerIds) <==> l in lines && l.headerId !in headerIds
  {
    if lines != [] {
      OutsideLinesExactly(lines[..|lines| - 1], headerIds);
      assert lines == lines[..|lines| - 1] + [lines[|lines| - 1]];
    }
  }

  lemma KeptLinesAreElsewhere(
    db: LedgerDb, journals: seq<JournalRow>, rows: seq<JournalLineRow>, skipExisting: bool, id: Id)
    requires ImportHeaders(db.headers, journals, rows, skipExisting).Ok?
    ensures var ids := ImportHeaders(db.headers, journals, rows, skipExisting).value.byNumber.Values;
            LineHeld(LinesOutside(db.lines, ids), id) <==> LineHeldElsewhere(db, journals, id)
  {
    var ids := ImportHeaders(db.headers, journals, rows, skipExisting).value.byNumber.Values;
    var kept := LinesOutside(db.lines, ids);
    OutsideLinesExactly(db.lines, ids);
    if k :| 0 <= k < |kept| && kept[k].id == id {
      LookupHoldsRewritten(db.headers, journals, rows, skipExisting, kept[k].headerId);
      assert kept[k] in db.lines;
      var h :| 0 <= h < |db.lines| && db.lines[h] == kept[k];
    }
    if k :| 0 <= k < |db.lines| && db.lines[k].id == id && !IsRewritten(db.headers, journals, db.lines[k].headerId) {
      LookupHoldsRewritten(db.headers, journals, rows, skipExisting, db.lines[k].headerId);
      assert db.lines[k] in kept;
    }
  }

  /** Every line's journal is in the file, and its id is new: no other line of the file has it, nor
      any line of a header that the import leaves alone. */
  predicate LinesWritable(db: LedgerDb, journals: seq<JournalRow>, rows: seq<JournalLineRow>) {
    && Distinct(Map(LineId, rows))
    && forall i :: 0 <= i < |rows| ==>
         Owner(journals, rows[i].journal).Some? && !LineHeldElsewhere(db, journals, LineId(rows[i]))
  }

  /** The exact condition for the journal import as a whole, on its inputs alone. */
  lemma {:induction false} JournalsSucceedIff(
    db: LedgerDb, journals: seq<JournalRow>, rows: seq<JournalLineRow>, skipExisting: bool)
    ensures ImportJournals(db, journals, rows, skipExisting).Ok? <==>
              AllWritable(db.headers, journals) && LinesWritable(db, journals, rows)
  {
    HeadersSucceedIff(db.headers, journals, rows, skipExisting);
    if ImportHeaders(db.headers, journals, rows, skipExisting).Ok? {
      var st := ImportHeaders(db.headers, journals, rows, skipExisting).value;
      var kept, ids := LinesOutside(db.lines, st.byNumber.Values), Map(LineId, rows);
      LinesSucceedIff(kept, st.byNumber, rows);
      forall i | 0 <= i < |rows|
        ensures rows[i].journal in st.byNumber <==> Owner(journals, rows[i].journal).Some?
        ensures LineHeld(kept, ids[i]) <==> LineHeldElsewhere(db, journals, LineId(rows[i]))
      {
        LookupLeadsToOwner(db.headers, journals, rows, skipExisting, rows[i].journal);
        KeptLinesAreElsewhere(db, journals, rows, skipExisting, LineId(rows[i]));
      }
    }
  }

  lemma TotalOfFour<K>(key: K, d: Entry<K>, c: Entry<K>)
    ensures Total(key, [d, d, c, c]) ==
              2 * (if d.key == key then Value(d.cents) else 0) + 2 * (if c.key == key then Value(c.cents) else 0)
  {
    TotalSnoc(key, [], d);
    TotalSnoc(key, [d], d);
    TotalSnoc(key, [d, d], c);
    TotalSnoc(key, [d, d, c], c);
    assert [] + [d] == [d] && [d] + [d] == [d, d] && [d, d] + [c] == [d, d, c] && [d, d, c] + [c] == [d, d, c, c];
  }

  lemma DoubledEntriesAreAccepted(d: Entry<(string, string)>, c: Entry<(string, string)>, number: string)
    requires d.key == (number, DEBIT) && c.key == (number, CREDIT) && d.cents.Some? && d.cents == c.cents
    ensures LedgerAccepted([d, d, c, c])
  {
    var lines := [d, d, c, c];
    TotalOfFour((number, DEBIT), d, c);
    TotalOfFour((number, CREDIT), d, c);
    assert Balances(number, lines);
    forall i | 0 <= i < |lines| ensures LineIsReadable(lines[i]) && lines[i].key.0 == number {
      assert lines[i] == d || lines[i] == c;
    }
  }

  /** A journal with the same debit and the same credit twice. */
  function Doubled(j: JournalRow, account: string, amount: string, memo: string): seq<JournalLineRow> {
    var d := JournalLineRow(j.number, DEBIT, account, amount, memo);
    var c := JournalLineRow(j.number, CREDIT, account, amount, memo);
    [d, d, c, c]
  }

  /** The validator accepts a journal with the same line twice, and no store lets the import of it
      through. */
  lemma {:induction false} RepeatedLineStopsTheImport(
    db: LedgerDb, j: JournalRow, account: string, amount: string, memo: string, skipExisting: bool,
    lower: string -> string)
    requires Amount(amount, 2).Some?
    ensures Accepts(NO_ROWS.(journals := [j], journalLines := Doubled(j, account, amount, memo)), lower)
    ensures ImportJournals(db, [j], Doubled(j, account, amount, memo), skipExisting).Err?
  {
    var lines := Doubled(j, account, amount, memo);
    DoubledEntriesAreAccepted(Posting(lines[0]), Posting(lines[2]), j.number);
    assert Map(Posting, lines) == [Posting(lines[0]), Posting(lines[0]), Posting(lines[2]), Posting(lines[2])];
    SmallPackIsAccepted(NO_ROWS.(journals := [j], journalLines := lines), lower);
    assert Map(LineId, lines)[0] == Map(LineId, lines)[1];
    JournalsSucceedIff(db, [j], lines, skipExisting);
  }

  lemma NoneHeldSnoc(kept: seq<LedgerLine>, ids: seq<Id>, id: Id)
    ensures NoneHeld(kept, ids + [id]) <==> NoneHeld(kept, ids) && !LineHeld(kept, id)
  {
    var all := ids + [id];
    assert all[|ids|] == id && forall i :: 0 <= i < |ids| ==> all[i] == ids[i];
  }

  // ---------- Headers against lines ----------

  lemma LookupIsInjective(headers: Headers, journals: seq<JournalRow>, lines: seq<JournalLineRow>, skipExisting: bool)
    requires ValidHeaders(headers) && ImportHeaders(headers, journals, lines, skipExisting).Ok?
    ensures InjectiveLookup(ImportHeaders(headers, journals, lines, skipExisting).value.byNumber)
  {
    var byNumber := ImportHeaders(headers, journals, lines, skipExisting).value.byNumber;
    HeadersStayValid(headers, journals, lines, skipExisting);
    forall a, b | a in byNumber && b in byNumber && byNumber[a] == byNumber[b] ensures a == b {
      LookupLeadsToOwner(headers, journals, lines, skipExisting, a);
      LookupLeadsToOwner(headers, journals, lines, skipExisting, b);
    }
  }

  /** Only an owner's header is looked up. */
  lemma IdLookedUpIffOwner(
    db: LedgerDb, journals: seq<JournalRow>, rows: seq<JournalLineRow>, skipExisting: bool, key: HeaderKey)
    requires ValidHeaders(db.headers) && ImportHeaders(db.headers, journals, rows, skipExisting).Ok?
    requires key in ImportHeaders(db.headers, journals, rows, skipExisting).value.headers
    ensures var st := ImportHeaders(db.headers, journals, rows, skipExisting).value;
            st.headers[key].id in st.byNumber.Values <==> Owner(journals, key.1) == Some(key.0)
    ensures var st := ImportHeaders(db.headers, journals, rows, skipExisting).value;
            Owner(journals, key.1) == Some(key.0) ==> key.1 in st.byNumber && st.byNumber[key.1] == st.headers[key].id
  {
    var st := ImportHeaders(db.headers, journals, rows, skipExisting).value;
    HeadersStayValid(db.headers, journals, rows, skipExisting);
    LookupLeadsToOwner(db.headers, journals, rows, skipExisting, key.1);
    if st.headers[key].id in st.byNumber.Values {
      var n :| n in st.byNumber && st.byNumber[n] == st.headers[key].id;
      LookupLeadsToOwner(db.headers, journals, rows, skipExisting, n);
    }
  }

  /** The stored lines of any header after the import: those of its number if it owns the
      number, and otherwise the lines it had. */
  lemma {:induction false} StoredLinesOfHeader(
    db: LedgerDb, journals: seq<JournalRow>, rows: seq<JournalLineRow>, skipExisting: bool, key: HeaderKey)
    requires ValidHeaders(db.headers) && ImportJournals(db, journals, rows, skipExisting).Ok?
    requires key in ImportJournals(db, journals, rows, skipExisting).value.headers
    ensures var after := ImportJournals(db, journals, rows, skipExisting).value;
            var id := after.headers[key].id;
            StoredSides(id, after.lines) ==
              if Owner(journals, key.1) == Some(key.0) then PackSides(key.1, rows) else StoredSides(id, db.lines)
  {
    var st := ImportHeaders(db.headers, journals, rows, skipExisting).value;
    var id := st.headers[key].id;
    IdLookedUpIffOwner(db, journals, rows, skipExisting, key);
    LookupIsInjective(db.headers, journals, rows, skipExisting);
    OutsideSides(id, db.lines, st.byNumber.Values);
    var kept := LinesOutside(db.lines, st.byNumber.Values);
    if Owner(journals, key.1) == Some(key.0) {
      CreatedSides(kept, st.byNumber, rows, key.1);
    } else {
      OtherHeadersGetNoLines(kept, st.byNumber, rows, id);
    }
  }

  function HeaderSides(h: Header): Sides {
    Sides(h.debit, h.credit)
  }

  /** Does the header state the sums of its own stored lines? */
  ghost predicate Consistent(db: LedgerDb, key: HeaderKey)
    requires key in db.headers
  {
    HeaderSides(db.headers[key]) == StoredSides(db.headers[key].id, db.lines)
  }

  /** Balance through import: accepted lines, journal numbers unique across organizations, and
      existing headers updated. Each header of the file then states equal debits and credits,
      and they are the sums of the lines actually stored under it. */
  lemma {:induction false} LedgerStoredBalanced(
    db: LedgerDb, journals: seq<JournalRow>, rows: seq<JournalLineRow>, i: nat)
    requires ValidHeaders(db.headers) && LedgerAccepted(Map(Posting, rows))
    requires ImportJournals(db, journals, rows, false).Ok? && i < |journals|
    requires forall k :: 0 <= k < |journals| && journals[k].number == journals[i].number ==>
               journals[k].org == journals[i].org
    ensures var after, key := ImportJournals(db, journals, rows, false).value, RowKey(journals[i]);
            && key in after.headers && after.headers[key].debit == after.headers[key].credit
            && Consistent(after, key)
  {
    var number, key := journals[i].number, RowKey(journals[i]);
    HeadersClosedForm(db.headers, journals, rows, false, key);
    assert HasRow(journals, key);
    ImporterTotalsAreThePacks(number, rows);
    AcceptedLedgerBalancesEverywhere(number, Map(Posting, rows));
    RowHasOwner(journals, i);
    OwnerHasRow(journals, number);
    StoredLinesOfHeader(db, journals, rows, false, key);
  }

  /** The exact condition for any header of the file, in either mode. An updated or created
      header agrees with its lines exactly when it owns its number, or its old lines happen to
      sum alike; a skipped one exactly when its old totals are the sums of the lines it ends with. */
  lemma {:induction false} HeaderConsistentIff(
    db: LedgerDb, journals: seq<JournalRow>, rows: seq<JournalLineRow>, skipExisting: bool, i: nat)
    requires ValidHeaders(db.headers) && LedgerAccepted(Map(Posting, rows))
    requires ImportJournals(db, journals, rows, skipExisting).Ok? && i < |journals|
    ensures var after, key := ImportJournals(db, journals, rows, skipExisting).value, RowKey(journals[i]);
            var owns := Owner(journals, key.1) == Some(key.0);
            && key in after.headers
            && (Consistent(after, key) <==>
                  if skipExisting && key in db.headers then
                    HeaderSides(db.headers[key]) ==
                      if owns then PackSides(key.1, rows) else StoredSides(db.headers[key].id, db.lines)
                  else owns || PackSides(key.1, rows) == StoredSides(StartingId(db.headers, key), db.lines))
  {
    var key := RowKey(journals[i]);
    HeadersClosedForm(db.headers, journals, rows, skipExisting, key);
    assert HasRow(journals, key);
    ImporterTotalsAreThePacks(key.1, rows);
    StoredLinesOfHeader(db, journals, rows, skipExisting, key);
  }

  /** Two stored headers of one number, for different organizations. */
  function TwoHeaders(a: string, b: string, number: string, x: Id, y: Id): Headers {
    map[(a, number) := Header(x, 0, 0), (b, number) := Header(y, 0, 0)]
  }

  function OneEntry(number: string, account: string, amount: string, memo: string): seq<JournalLineRow> {
    [JournalLineRow(number, DEBIT, account, amount, memo), JournalLineRow(number, CREDIT, account, amount, memo)]
  }

  lemma OneEntryIsWritable(
    db: LedgerDb, journals: seq<JournalRow>, number: string, account: string, amount: string, memo: string)
    requires db.lines == [] && Owner(journals, number).Some?
    ensures LinesWritable(db, journals, OneEntry(number, account, amount, memo))
  {
    var rows := OneEntry(number, account, amount, memo);
    var s := Join([number, DEBIT, account, amount, memo], [COLON]);
    var t := Join([number, CREDIT, account, amount, memo], [COLON]);
    assert s[|number| + 1] == 'D' && t[|number| + 1] == 'C' by {
      JoinConcat([number], [DEBIT, account, amount, memo], [COLON]);
      JoinConcat([number], [CREDIT, account, amount, memo], [COLON]);
      JoinConcat([DEBIT], [account, amount, memo], [COLON]);
      JoinConcat([CREDIT], [account, amount, memo], [COLON]);
    }
    assert s == (LINE_LABEL + s)[|LINE_LABEL|..] && t == (LINE_LABEL + t)[|LINE_LABEL|..];
    assert Map(LineId, rows) == [LineId(rows[0]), LineId(rows[1])];
  }

  lemma OneEntryBalances(number: string, account: string, amount: string, memo: string)
    requires Amount(amount, 2).Some?
    ensures LedgerAccepted(Map(Posting, OneEntry(number, account, amount, memo)))
    ensures PackSides(number, OneEntry(number, account, amount, memo)) == Sides(Cents(amount), Cents(amount))
  {
    var rows := OneEntry(number, account, amount, memo);
    var d, c := Posting(rows[0]), Posting(rows[1]);
    assert Map(Posting, rows) == [d, c];
    TotalSnoc((number, DEBIT), [], d);
    TotalSnoc((number, DEBIT), [d], c);
    TotalSnoc((number, CREDIT), [], d);
    TotalSnoc((number, CREDIT), [d], c);
    assert [] + [d] == [d] && [d] + [c] == [d, c];
    CentsAreValues(amount);
    assert Balances(number, [d, c]);
  }

  /** Two organizations with one journal number, both headers stored: the import goes through, and
      the first header states totals of lines that are all stored under the second. */
  lemma {:induction false} SharedNumberIsInconsistent(
    a: string, b: string, number: string, x: Id, y: Id, account: string, amount: string, memo: string)
    requires a != b && x != y && Amount(amount, 2).Some? && Cents(amount) != 0
    ensures var db := LedgerDb(TwoHeaders(a, b, number, x, y), []);
            var result := ImportJournals(db, [JournalRow(a, number), JournalRow(b, number)],
                                         OneEntry(number, account, amount, memo), false);
            && result.Ok? && (a, number) in result.value.headers
            && result.value.headers[(a, number)].debit == Cents(amount)
            && !Consistent(result.value, (a, number))
  {
    var db, rows := LedgerDb(TwoHeaders(a, b, number, x, y), []), OneEntry(number, account, amount, memo);
    var journals := [JournalRow(a, number), JournalRow(b, number)];
    assert RowKey(journals[0]) in db.headers && RowKey(journals[1]) in db.headers;
    OneEntryIsWritable(db, journals, number, account, amount, memo);
    OneEntryBalances(number, account, amount, memo);
    JournalsSucceedIff(db, journals, rows, false);
    HeaderConsistentIff(db, journals, rows, false, 0);
    HeadersClosedForm(db.headers, journals, rows, false, (a, number));
    assert HasRow(journals, RowKey(journals[0]));
    ImporterTotalsAreThePacks(number, rows);
    assert Map(Stored, db.lines) == [];
  }

  // ---------- Running again ----------

  lemma {:induction false} RerunHeadersSucceed(
    headers: Headers, journals: seq<JournalRow>, lines: seq<JournalLineRow>, skipExisting: bool)
    requires forall i :: 0 <= i < |journals| ==> RowKey(journals[i]) in headers
    ensures ImportHeaders(headers, journals, lines, skipExisting).Ok?
    ensures ImportHeaders(headers, journals, lines, skipExisting).value.headers.Keys == headers.Keys
  {
    if journals != [] {
      RerunHeadersSucceed(headers, journals[..|journals| - 1], lines, skipExisting);
    }
  }

  /** The headers step is idempotent, lookup included. */
  lemma HeadersAreIdempotent(
    headers: Headers, journals: seq<JournalRow>, lines: seq<JournalLineRow>, skipExisting: bool)
    requires ImportHeaders(headers, journals, lines, skipExisting).Ok?
    ensures var st := ImportHeaders(headers, journals, lines, skipExisting);
            ImportHeaders(st.value.headers, journals, lines, skipExisting) == st
  {
    var st := ImportHeaders(headers, journals, lines, skipExisting).value;
    forall i | 0 <= i < |journals| ensures RowKey(journals[i]) in st.headers {
      HeadersClosedForm(headers, journals, lines, skipExisting, RowKey(journals[i]));
      assert HasRow(journals, RowKey(journals[i]));
    }
    RerunHeadersSucceed(st.headers, journals, lines, skipExisting);
    var again := ImportHeaders(st.headers, journals, lines, skipExisting).value;
    forall key | key in st.headers ensures again.headers[key] == st.headers[key] {
      HeadersClosedForm(headers, journals, lines, skipExisting, key);
      HeadersClosedForm(st.headers, journals, lines, skipExisting, key);
    }
    assert again.headers == st.headers;
    forall n ensures n in again.byNumber <==> n in st.byNumber
             ensures n in st.byNumber ==> again.byNumber[n] == st.byNumber[n] {
      LookupLeadsToOwner(headers, journals, lines, skipExisting, n);
      LookupLeadsToOwner(st.headers, journals, lines, skipExisting, n);
    }
    assert again.byNumber == st.byNumber;
  }

  lemma {:induction false} OutsideIsIdempotent(lines: seq<LedgerLine>, headerIds: set<Id>)
    ensures LinesOutside(LinesOutside(lines, headerIds), headerIds) == LinesOutside(lines, headerIds)
  {
    if lines != [] {
      var outside := LinesOutside(lines[..|lines| - 1], headerIds);
      OutsideIsIdempotent(lines[..|lines| - 1], headerIds);
      assert (outside + [lines[|lines| - 1]])[..|outside|] == outside;
      assert outside + [] == outside;
    }
  }

  /** Deleting again removes exactly what was created. */
  lemma {:induction false} CreatedLinesAreDeletedAgain(
    kept: seq<LedgerLine>, byNumber: map<string, Id>, rows: seq<JournalLineRow>)
    requires CreateLines(kept, byNumber, rows).Ok? && LinesOutside(kept, byNumber.Values) == kept
    ensures LinesOutside(CreateLines(kept, byNumber, rows).value, byNumber.Values) == kept
  {
    if rows != [] {
      var l := rows[|rows| - 1];
      var before := CreateLines(kept, byNumber, rows[..|rows| - 1]).value;
      CreatedLinesAreDeletedAgain(kept, byNumber, rows[..|rows| - 1]);
      var all := before + [LedgerLine(LineId(l), byNumber[l.journal], l.direction, Cents(l.amount))];
      assert all[..|before|] == before;
      assert byNumber[l.journal] in byNumber.Values;
    }
  }

  /** A further run restores the ledger exactly, whatever was done in between to the lines of
      the journals it writes; run on its own result it changes nothing. */
  lemma {:induction false} RerunRestoresLedger(
    db: LedgerDb, journals: seq<JournalRow>, rows: seq<JournalLineRow>, skipExisting: bool, edited: seq<LedgerLine>)
    requires ImportJournals(db, journals, rows, skipExisting).Ok?
    requires var after := ImportJournals(db, journals, rows, skipExisting).value;
             var ids := ImportHeaders(db.headers, journals, rows, skipExisting).value.byNumber.Values;
             LinesOutside(edited, ids) == LinesOutside(after.lines, ids)
    ensures var after := ImportJournals(db, journals, rows, skipExisting).value;
            && ImportJournals(LedgerDb(after.headers, edited), journals, rows, skipExisting) == Ok(after)
            && ImportJournals(after, journals, rows, skipExisting) == Ok(after)
  {
    var st := ImportHeaders(db.headers, journals, rows, skipExisting).value;
    HeadersAreIdempotent(db.headers, journals, rows, skipExisting);
    OutsideIsIdempotent(db.lines, st.byNumber.Values);
    CreatedLinesAreDeletedAgain(LinesOutside(db.lines, st.byNumber.Values), st.byNumber, rows);
  }
}
