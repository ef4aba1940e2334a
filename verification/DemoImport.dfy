/** One run of the importer: validate, and only then, in write mode, write. */
module DemoImport {
  import opened Prelude
  import opened Validator
  import opened SalesImport
  import opened SalesLaws
  import opened Ledger
  import opened LedgerLaws
  import opened LedgerOutcome

  datatype Outcome =
    | Rejected(fault: Fault)
    | DryRun
    | SalesFailed(salesError: ImportError)
    | LedgerFailed(ledgerError: LedgerError)
    | Written

  /** Every journal of the file has its header and states the sums of the file, unless an older header was
      skipped; where one organization has the number, the stored lines balance at the same sums. */
  ghost predicate LedgerSound(
    before: Headers, after: LedgerDb, journals: seq<JournalRow>, rows: seq<JournalLineRow>, skipExisting: bool)
  {
    forall i :: 0 <= i < |journals| ==>
      && (journals[i].org, journals[i].number) in after.headers
      && (NumberUnique(journals, i) ==> LinesBalance(after, journals[i], rows))
      && (!skipExisting || RowKey(journals[i]) !in before ==> HeaderStatesSums(after, journals[i], rows))
  }

  /** A rejected pack and a dry run write nothing. A run on an accepted pack takes the sales step,
      and if that goes through the ledger step, whatever the mode; each failure is reported as the
      step's own, and leaves what the step has written. From a clean start the sales step leaves
      the pack's orders paid as due exactly when the payments it loses are not needed, and itemized
      exactly when no items are missing. After a full run the ledger is sound, in both modes. */
  method RunImport(
    p: Pack, lower: string -> string, branches: Branches,
    sales: SalesStore, ledger: LedgerStore, write: bool, skipExisting: bool) returns (outcome: Outcome)
    requires Injective(branches)
    modifies sales, ledger
    ensures outcome.Rejected? <==> !Accepts(p, lower)
    ensures outcome.Rejected? ==> BlamesPack(outcome.fault, p, lower)
    ensures outcome.DryRun? <==> Accepts(p, lower) && !write
    ensures outcome.Rejected? || outcome.DryRun? ==>
              sales.Contents() == old(sales.Contents()) && ledger.Contents() == old(ledger.Contents())
    ensures Accepts(p, lower) && write ==>
              var (db, error) := Import(old(sales.Contents()), branches, p);
              && sales.Contents() == db
              && match error
                 case Some(e) => outcome == SalesFailed(e) && ledger.Contents() == old(ledger.Contents())
                 case None =>
                   match ImportJournals(old(ledger.Contents()), p.journals, p.journalLines, skipExisting)
                   case Ok(written) => outcome == Written && ledger.Contents() == written
                   case Err(e) => outcome == LedgerFailed(e)
                                  && ImportStopped(old(ledger.Contents()), p.journals, p.journalLines, skipExisting,
                                                   ledger.Contents(), e)
    ensures outcome.Written? || outcome.LedgerFailed? ==>
              old(CleanStart(sales.Contents(), branches, p)) ==>
                && (Conserved(sales.Contents(), p.orders) <==> old(LossesBearable(sales.payments, p)))
                && (Itemized(sales.Contents(), p) <==> old(NoItemsMissing(sales.items, p)))
    ensures outcome.Written? ==>
              forall i :: 0 <= i < |p.journals| ==>
                HeaderWritten(old(ledger.headers), ledger.headers, p.journals[i], p.journalLines, skipExisting)
    ensures outcome.Written? && old(ValidHeaders(ledger.headers)) ==>
              LedgerSound(old(ledger.headers), ledger.Contents(), p.journals, p.journalLines, skipExisting)
  {
    var fault := ValidatePack(p, lower);
    if fault.Some? {
      return Rejected(fault.value);
    }
    if !write {
      return DryRun;
    }
    ghost var startSales, startLedger := sales.Contents(), ledger.Contents();
    var salesError, orderCounters, itemCounters, paymentCounters, hardened := sales.ImportSales(branches, p);
    if salesError.Some? {
      return SalesFailed(salesError.value);
    }
    if CleanStart(startSales, branches, p) {
      PaymentsConserved(startSales, branches, p, lower);
    }
    var ledgerError := ledger.Import(p.journals, p.journalLines, skipExisting);
    if ledgerError.Some? {
      return LedgerFailed(ledgerError.value);
    }
    HeadersStoredAsFiled(startLedger, p.journals, p.journalLines, skipExisting);
    if ValidHeaders(startLedger.headers) {
      LedgerStaysSound(startLedger, p.journals, p.journalLines, skipExisting);
    }
    return Written;
  }

  lemma LedgerStaysSound(db: LedgerDb, journals: seq<JournalRow>, rows: seq<JournalLineRow>, skipExisting: bool)
    requires ValidHeaders(db.headers) && LedgerAccepted(Map(Posting, rows))
    requires ImportJournals(db, journals, rows, skipExisting).Ok?
    ensures var after := ImportJournals(db, journals, rows, skipExisting).value;
            LedgerSound(db.headers, after, journals, rows, skipExisting)
  {
    var after := ImportJournals(db, journals, rows, skipExisting).value;
    HeadersStoredAsFiled(db, journals, rows, skipExisting);
    forall i | 0 <= i < |journals|
      ensures (journals[i].org, journals[i].number) in after.headers
      ensures NumberUnique(journals, i) ==> LinesBalance(after, journals[i], rows)
      ensures !skipExisting || RowKey(journals[i]) !in db.headers ==> HeaderStatesSums(after, journals[i], rows)
    {
      assert HeaderWritten(db.headers, after.headers, journals[i], rows, skipExisting);
      JournalStoredAsFiled(db, journals, rows, skipExisting, i);
    }
  }
}
