/** What acceptance says of a pack, in the cells of its rows alone: distinct rows, readable amounts
    and sums over the rows that agree in the fields a key is made of. */
module PackMeaning {
  import opened Prelude
  import opened Keys
  import opened Money
  import opened Validator
  import opened ValidatorLaws

  // ---------- Keyed sums as filters over rows ----------

  /** The running total under a key is the sum over the rows with that key. */
  lemma {:induction false} KeyedSumIsFilter<T, K>(
    entry: T -> Entry<K>, key: K, keep: T -> bool, amount: T -> int, rows: seq<T>)
    requires forall i :: 0 <= i < |rows| ==>
               && (keep(rows[i]) <==> entry(rows[i]).key == key)
               && amount(rows[i]) == Value(entry(rows[i]).cents)
    ensures Total(key, Map(entry, rows)) == SumWhere(keep, amount, rows)
  {
    if rows != [] {
      KeyedSumIsFilter(entry, key, keep, amount, rows[..|rows| - 1]);
      MapSnoc(entry, rows);
    }
  }

  lemma {:induction false} SumOfParts<S, T>(
    part: S -> T, keep: T -> bool, keepWhole: S -> bool, amount: T -> int, amountOf: S -> int, rows: seq<S>)
    requires forall i :: 0 <= i < |rows| ==>
               keepWhole(rows[i]) == keep(part(rows[i])) && amountOf(rows[i]) == amount(part(rows[i]))
    ensures SumWhere(keep, amount, Map(part, rows)) == SumWhere(keepWhole, amountOf, rows)
  {
    if rows != [] {
      SumOfParts(part, keep, keepWhole, amount, amountOf, rows[..|rows| - 1]);
      MapSnoc(part, rows);
    }
  }

  // ---------- Documents ----------

  /** What the lines of a document come to. */
  function LinesTotal(number: string, lines: seq<DocumentLineRow>): int {
    SumWhere((l: DocumentLineRow) => l.document == number, (l: DocumentLineRow) => Cents(l.lineTotal), lines)
  }

  /** Every line and subtotal can be read, and the lines of each document make up its subtotal. */
  predicate DocumentsSound(documents: seq<DocumentRow>, lines: seq<DocumentLineRow>) {
    && (forall i :: 0 <= i < |lines| ==> Amount(lines[i].lineTotal, 2).Some?)
    && (forall i :: 0 <= i < |documents| ==>
          && Amount(documents[i].subtotal, 2).Some?
          && LinesTotal(documents[i].number, lines) == Cents(documents[i].subtotal))
  }

  lemma DocumentAddsUpIffSound(d: DocumentRow, lines: seq<DocumentLineRow>)
    ensures DocumentAddsUp(DocumentEntry(d), Map(LineEntry, lines)) <==>
              Amount(d.subtotal, 2).Some? && LinesTotal(d.number, lines) == Cents(d.subtotal)
  {
    KeyedSumIsFilter(LineEntry, d.number, (l: DocumentLineRow) => l.document == d.number,
                     (l: DocumentLineRow) => Cents(l.lineTotal), lines);
  }

  /** Bills and invoices pass exactly when their lines add up to the subtotal, before tax. */
  lemma {:induction false} DocumentsAcceptedIffSound(documents: seq<DocumentRow>, lines: seq<DocumentLineRow>)
    ensures DocumentsSound(documents, lines) <==>
              DocumentsAccepted(Map(DocumentEntry, documents), Map(LineEntry, lines))
  {
    var entries := Map(LineEntry, lines);
    assert EntriesParse(entries) <==> forall i :: 0 <= i < |lines| ==> Amount(lines[i].lineTotal, 2).Some? by {
      forall i | 0 <= i < |lines| ensures entries[i].cents.Some? <==> Amount(lines[i].lineTotal, 2).Some? {
      }
    }
    forall i | 0 <= i < |documents|
      ensures DocumentAddsUp(Map(DocumentEntry, documents)[i], entries) <==>
                && Amount(documents[i].subtotal, 2).Some?
                && LinesTotal(documents[i].number, lines) == Cents(documents[i].subtotal)
    {
      DocumentAddsUpIffSound(documents[i], lines);
    }
  }

  // ---------- Journals ----------

  /** What one side of a journal comes to. */
  function SideTotal(number: string, direction: string, lines: seq<JournalLineRow>): int {
    SumWhere((l: JournalLineRow) => l.journal == number && l.direction == direction,
             (l: JournalLineRow) => Cents(l.amount), lines)
  }

  /** Every line is a readable debit or credit, and each journal has as much of both. */
  predicate JournalsSound(lines: seq<JournalLineRow>) {
    forall i :: 0 <= i < |lines| ==>
      && (lines[i].direction == "DEBIT" || lines[i].direction == "CREDIT")
      && Amount(lines[i].amount, 2).Some?
      && SideTotal(lines[i].journal, "DEBIT", lines) == SideTotal(lines[i].journal, "CREDIT", lines)
  }

  lemma SideIsFilter(number: string, direction: string, lines: seq<JournalLineRow>)
    ensures Total((number, direction), Map(Posting, lines)) == SideTotal(number, direction, lines)
  {
    KeyedSumIsFilter(Posting, (number, direction),
                     (l: JournalLineRow) => l.journal == number && l.direction == direction,
                     (l: JournalLineRow) => Cents(l.amount), lines);
  }

  lemma {:induction false} LedgerAcceptedIffSound(lines: seq<JournalLineRow>)
    ensures LedgerAccepted(Map(Posting, lines)) <==> JournalsSound(lines)
  {
    var entries := Map(Posting, lines);
    forall i | 0 <= i < |lines|
      ensures LineIsReadable(entries[i]) <==>
                && (lines[i].direction == "DEBIT" || lines[i].direction == "CREDIT")
                && Amount(lines[i].amount, 2).Some?
      ensures Balances(entries[i].key.0, entries) <==>
                SideTotal(lines[i].journal, "DEBIT", lines) == SideTotal(lines[i].journal, "CREDIT", lines)
    {
      SideIsFilter(lines[i].journal, DEBIT, lines);
      SideIsFilter(lines[i].journal, CREDIT, lines);
    }
  }

  // ---------- Orders and payments ----------

  /** What the items, the modifiers and the payments of one order come to. */
  function ItemsTotal(o: OrderRow, items: seq<ItemRow>): int {
    SumWhere((r: ItemRow) => r.charge.branch == o.branch && r.charge.number == o.number,
             (r: ItemRow) => Cents(r.charge.amount), items)
  }

  function ModifiersTotal(o: OrderRow, modifiers: seq<Charge>): int {
    SumWhere((c: Charge) => c.branch == o.branch && c.number == o.number, (c: Charge) => Cents(c.amount), modifiers)
  }

  function PaymentsTotal(o: OrderRow, payments: seq<PaymentRow>): int {
    SumWhere((q: PaymentRow) => q.charge.branch == o.branch && q.charge.number == o.number,
             (q: PaymentRow) => Cents(q.charge.amount), payments)
  }

  /** Items and modifiers make up the subtotal, subtotal and tax less discount the total; a closed
      order is paid exactly, and none is paid more than its total. */
  predicate OrderAddsUp(p: Pack, o: OrderRow) {
    var paid := PaymentsTotal(o, p.payments);
    && ItemsTotal(o, p.items) + ModifiersTotal(o, p.modifiers) == Cents(o.subtotal)
    && Cents(o.subtotal) + Cents(o.tax) - Cents(o.discount) == Cents(o.total)
    && (o.status == "CLOSED" ==> paid == Cents(o.total))
    && paid <= Cents(o.total)
  }

  predicate AmountsReadable(p: Pack) {
    && (forall i :: 0 <= i < |p.orders| ==>
          && Amount(p.orders[i].subtotal, 2).Some? && Amount(p.orders[i].tax, 2).Some?
          && Amount(p.orders[i].discount, 2).Some? && Amount(p.orders[i].total, 2).Some?)
    && (forall i :: 0 <= i < |p.items| ==> Amount(p.items[i].charge.amount, 2).Some?)
    && (forall i :: 0 <= i < |p.modifiers| ==> Amount(p.modifiers[i].amount, 2).Some?)
    && (forall i :: 0 <= i < |p.payments| ==> Amount(p.payments[i].charge.amount, 2).Some?)
  }

  predicate SalesSound(p: Pack) {
    AmountsReadable(p) && forall i :: 0 <= i < |p.orders| ==> OrderAddsUp(p, p.orders[i])
  }

  lemma ChargedToIsFilter(o: OrderRow, charges: seq<Charge>)
    ensures ChargedTo(o.branch, o.number, charges) == ModifiersTotal(o, charges)
  {
    KeyedSumIsFilter(ByOrder, (o.branch, o.number), (c: Charge) => c.branch == o.branch && c.number == o.number,
                     (c: Charge) => Cents(c.amount), charges);
  }

  lemma ItemsTotalOfCharges(o: OrderRow, items: seq<ItemRow>)
    ensures ChargedTo(o.branch, o.number, ItemCharges(items)) == ItemsTotal(o, items)
  {
    ChargedToIsFilter(o, ItemCharges(items));
    SumOfParts(ItemCharge, (c: Charge) => c.branch == o.branch && c.number == o.number,
               (r: ItemRow) => r.charge.branch == o.branch && r.charge.number == o.number,
               (c: Charge) => Cents(c.amount), (r: ItemRow) => Cents(r.charge.amount), items);
  }

  lemma PaymentsTotalOfCharges(o: OrderRow, payments: seq<PaymentRow>)
    ensures PaidTo(o.branch, o.number, payments) == PaymentsTotal(o, payments)
  {
    ChargedToIsFilter(o, Map(ChargeOf, payments));
    SumOfParts(ChargeOf, (c: Charge) => c.branch == o.branch && c.number == o.number,
               (q: PaymentRow) => q.charge.branch == o.branch && q.charge.number == o.number,
               (c: Charge) => Cents(c.amount), (q: PaymentRow) => Cents(q.charge.amount), payments);
  }

  lemma OrderSoundIffAddsUp(p: Pack, o: OrderRow)
    ensures OrderSound(p, o) <==> OrderAddsUp(p, o)
  {
    ItemsTotalOfCharges(o, p.items);
    ChargedToIsFilter(o, p.modifiers);
    PaymentsTotalOfCharges(o, p.payments);
  }

  lemma ReadableIff(p: Pack)
    ensures SalesReadable(p) <==> AmountsReadable(p)
  {
    assert forall i :: 0 <= i < |p.orders| ==>
        (OrderParses(Map(FiguresOf, p.orders)[i]) <==>
          && Amount(p.orders[i].subtotal, 2).Some? && Amount(p.orders[i].tax, 2).Some?
          && Amount(p.orders[i].discount, 2).Some? && Amount(p.orders[i].total, 2).Some?);
    assert forall i :: 0 <= i < |p.items| ==>
        (Map(ChargeEntry, ItemCharges(p.items))[i].cents.Some? <==> Amount(p.items[i].charge.amount, 2).Some?);
    assert forall i :: 0 <= i < |p.modifiers| ==>
        (Map(ChargeEntry, p.modifiers)[i].cents.Some? <==> Amount(p.modifiers[i].amount, 2).Some?);
    assert forall i :: 0 <= i < |p.payments| ==>
        (Map(PaymentEntry, p.payments)[i].cents.Some? <==> Amount(p.payments[i].charge.amount, 2).Some?);
  }

  lemma SalesAcceptedIffSound(p: Pack)
    requires OrdersUnmixed(p)
    ensures SalesSound(p) <==> SalesAccepted(Map(FiguresOf, p.orders), Map(ChargeEntry, ItemCharges(p.items)),
                                             Map(ChargeEntry, p.modifiers), Map(PaymentEntry, p.payments))
  {
    SalesAcceptedIffOrdersSound(p);
    ReadableIff(p);
    forall i | 0 <= i < |p.orders| ensures OrderSound(p, p.orders[i]) <==> OrderAddsUp(p, p.orders[i]) {
      OrderSoundIffAddsUp(p, p.orders[i]);
    }
  }

  // ---------- Keys ----------

  /** The fields that separate a key's parts hold no colon. The last part of a pair may. */
  predicate KeyFieldsClean(p: Pack, lower: string -> string) {
    && (forall i :: 0 <= i < |p.branches| ==> COLON !in p.branches[i].org)
    && (forall i :: 0 <= i < |p.memberships| ==> COLON !in lower(p.memberships[i].email))
    && (forall i :: 0 <= i < |p.tables| ==> COLON !in p.tables[i].branch)
    && (forall i :: 0 <= i < |p.menuItems| ==> NestedClean(p.menuItems[i]))
    && (forall i :: 0 <= i < |p.groups| ==> COLON !in p.groups[i].branch)
    && (forall i :: 0 <= i < |p.subgroups| ==> NestedClean(p.subgroups[i]))
    && (forall i :: 0 <= i < |p.assignments| ==> COLON !in p.assignments[i].branch)
    && (forall i :: 0 <= i < |p.payments| ==> FreeOf(COLON, PaymentParts(p.payments[i])))
    && (forall i :: 0 <= i < |p.journals| ==> COLON !in p.journals[i].org)
  }

  predicate NestedClean(r: NestedRow) {
    FreeOf(COLON, [r.branch, r.parent, r.name])
  }

  /** The transaction id of a payment, or the provider's reference when it has none. */
  function PaymentFields(q: PaymentRow): (string, string, string, string, string) {
    (q.charge.branch, q.charge.number, if q.transactionId == "" then q.providerRef else q.transactionId,
     q.payMethod, q.charge.amount)
  }

  /** Rows that are required to be filled in are, and no file repeats a row in its key fields. */
  predicate RowsDistinct(p: Pack, lower: string -> string) {
    && "" !in p.orgs && Distinct(p.orgs)
    && Distinct(p.branches)
    && "" !in p.users && Distinct(Map(lower, p.users))
    && Distinct(Map((m: MembershipRow) => (lower(m.email), m.branch), p.memberships))
    && Distinct(p.tables) && Distinct(p.menuItems)
    && Distinct(p.groups) && Distinct(p.subgroups) && Distinct(p.assignments)
    && Distinct(Map((o: OrderRow) => (o.branch, o.number), p.orders))
    && Distinct(Map(PaymentFields, p.payments))
    && Distinct(p.journals)
  }

  /** Keys that agree exactly where the fields do are distinct exactly where the fields are. */
  lemma SameDistinctness<T, K>(key: T -> string, fields: T -> K, rows: seq<T>)
    requires forall i, j :: 0 <= i < j < |rows| ==>
               (key(rows[i]) == key(rows[j]) <==> fields(rows[i]) == fields(rows[j]))
    ensures Distinct(Map(key, rows)) <==> Distinct(Map(fields, rows))
  {
    if !Distinct(Map(key, rows)) {
      var i, j :| 0 <= i < j < |rows| && Map(key, rows)[i] == Map(key, rows)[j];
      assert Map(fields, rows)[i] == Map(fields, rows)[j];
    }
    if !Distinct(Map(fields, rows)) {
      var i, j :| 0 <= i < j < |rows| && Map(fields, rows)[i] == Map(fields, rows)[j];
      assert Map(key, rows)[i] == Map(key, rows)[j];
    }
  }

  lemma MapOfItself<T>(rows: seq<T>)
    ensures Map((r: T) => r, rows) == rows
  {
  }

  lemma PairKeysAgree(a: string, x: string, b: string, y: string)
    requires COLON !in a && COLON !in b
    ensures PairKey(a, x) == PairKey(b, y) <==> a == b && x == y
  {
    if PairKey(a, x) == PairKey(b, y) {
      CutAtSeparator(a, x, b, y, SEPARATOR);
    }
  }

  lemma BranchesDistinct(rows: seq<BranchRow>)
    requires forall i :: 0 <= i < |rows| ==> COLON !in rows[i].org
    ensures Distinct(Map(BranchKey, rows)) <==> Distinct(rows)
  {
    forall i, j | 0 <= i < j < |rows| ensures BranchKey(rows[i]) == BranchKey(rows[j]) <==> rows[i] == rows[j] {
      PairKeysAgree(rows[i].org, rows[i].code, rows[j].org, rows[j].code);
    }
    SameDistinctness(BranchKey, (r: BranchRow) => r, rows);
    MapOfItself(rows);
  }

  lemma MembershipsDistinct(rows: seq<MembershipRow>, lower: string -> string)
    requires forall i :: 0 <= i < |rows| ==> COLON !in lower(rows[i].email)
    ensures Distinct(MembershipKeys(rows, lower)) <==>
              Distinct(Map((m: MembershipRow) => (lower(m.email), m.branch), rows))
  {
    forall i, j | 0 <= i < j < |rows|
      ensures MembershipKey(rows[i], lower) == MembershipKey(rows[j], lower) <==>
                (lower(rows[i].email), rows[i].branch) == (lower(rows[j].email), rows[j].branch)
    {
      PairKeysAgree(lower(rows[i].email), rows[i].branch, lower(rows[j].email), rows[j].branch);
    }
    var key := (m: MembershipRow) => MembershipKey(m, lower);
    SameDistinctness(key, (m: MembershipRow) => (lower(m.email), m.branch), rows);
    assert Map(key, rows) == MembershipKeys(rows, lower);
  }

  lemma NamesDistinct(rows: seq<NamedRow>)
    requires forall i :: 0 <= i < |rows| ==> COLON !in rows[i].branch
    ensures Distinct(Map(NameKey, rows)) <==> Distinct(rows)
  {
    forall i, j | 0 <= i < j < |rows| ensures NameKey(rows[i]) == NameKey(rows[j]) <==> rows[i] == rows[j] {
      PairKeysAgree(rows[i].branch, rows[i].name, rows[j].branch, rows[j].name);
    }
    SameDistinctness(NameKey, (r: NamedRow) => r, rows);
    MapOfItself(rows);
  }

  lemma NestedKeysAgree(a: NestedRow, b: NestedRow)
    requires NestedClean(a) && NestedClean(b)
    ensures NestedKey(a) == NestedKey(b) <==> a == b
  {
    var p, q := [a.branch, a.parent, a.name], [b.branch, b.parent, b.name];
    if NestedKey(a) == NestedKey(b) {
      JoinInjective(p, q, SEPARATOR);
      assert p[0] == q[0] && p[1] == q[1] && p[2] == q[2];
    }
  }

  lemma NestedDistinct(rows: seq<NestedRow>)
    requires forall i :: 0 <= i < |rows| ==> NestedClean(rows[i])
    ensures Distinct(Map(NestedKey, rows)) <==> Distinct(rows)
  {
    forall i, j | 0 <= i < j < |rows| ensures NestedKey(rows[i]) == NestedKey(rows[j]) <==> rows[i] == rows[j] {
      NestedKeysAgree(rows[i], rows[j]);
    }
    SameDistinctness(NestedKey, (r: NestedRow) => r, rows);
    MapOfItself(rows);
  }

  lemma OrdersDistinct(rows: seq<OrderRow>)
    requires forall i :: 0 <= i < |rows| ==> COLON !in rows[i].branch
    ensures Distinct(Map(OrderKey, rows)) <==> Distinct(Map((o: OrderRow) => (o.branch, o.number), rows))
  {
    forall i, j | 0 <= i < j < |rows|
      ensures OrderKey(rows[i]) == OrderKey(rows[j]) <==>
                (rows[i].branch, rows[i].number) == (rows[j].branch, rows[j].number)
    {
      PairKeysAgree(rows[i].branch, rows[i].number, rows[j].branch, rows[j].number);
    }
    SameDistinctness(OrderKey, (o: OrderRow) => (o.branch, o.number), rows);
  }

  lemma PaymentsDistinct(rows: seq<PaymentRow>)
    requires forall i :: 0 <= i < |rows| ==> FreeOf(COLON, PaymentParts(rows[i]))
    ensures Distinct(Map(PaymentKey, rows)) <==> Distinct(Map(PaymentFields, rows))
  {
    forall i, j | 0 <= i < j < |rows|
      ensures PaymentKey(rows[i]) == PaymentKey(rows[j]) <==> PaymentFields(rows[i]) == PaymentFields(rows[j])
    {
      PaymentKeyIdentifies(rows[i], rows[j]);
    }
    SameDistinctness(PaymentKey, PaymentFields, rows);
  }

  lemma JournalsDistinct(rows: seq<JournalRow>)
    requires forall i :: 0 <= i < |rows| ==> COLON !in rows[i].org
    ensures Distinct(Map(JournalKey, rows)) <==> Distinct(rows)
  {
    forall i, j | 0 <= i < j < |rows| ensures JournalKey(rows[i]) == JournalKey(rows[j]) <==> rows[i] == rows[j] {
      PairKeysAgree(rows[i].org, rows[i].number, rows[j].org, rows[j].number);
    }
    SameDistinctness(JournalKey, (r: JournalRow) => r, rows);
    MapOfItself(rows);
  }

  /** The twelve files one by one. */
  lemma KeysUniqueSplit(p: Pack, lower: string -> string)
    ensures KeysUnique(p, lower) <==>
              && "" !in p.orgs && Distinct(p.orgs) && Distinct(Map(BranchKey, p.branches))
              && "" !in p.users && Distinct(Map(lower, p.users)) && Distinct(MembershipKeys(p.memberships, lower))
              && Distinct(Map(NameKey, p.tables)) && Distinct(Map(NestedKey, p.menuItems))
              && Distinct(Map(NameKey, p.groups)) && Distinct(Map(NestedKey, p.subgroups))
              && Distinct(Map(NameKey, p.assignments)) && Distinct(Map(OrderKey, p.orders))
              && Distinct(Map(PaymentKey, p.payments)) && Distinct(Map(JournalKey, p.journals))
  {
    var files := KeyFiles(p, lower);
    if KeysUnique(p, lower) {
      assert KeyFileSound(files[0]) && KeyFileSound(files[1]) && KeyFileSound(files[2]) && KeyFileSound(files[3]);
      assert KeyFileSound(files[4]) && KeyFileSound(files[5]) && KeyFileSound(files[6]) && KeyFileSound(files[7]);
      assert KeyFileSound(files[8]) && KeyFileSound(files[9]) && KeyFileSound(files[10]) && KeyFileSound(files[11]);
    }
  }

  lemma {:induction false} KeysUniqueIffRowsDistinct(p: Pack, lower: string -> string)
    requires KeyFieldsClean(p, lower) && forall i :: 0 <= i < |p.orders| ==> COLON !in p.orders[i].branch
    ensures KeysUnique(p, lower) <==> RowsDistinct(p, lower)
  {
    KeysUniqueSplit(p, lower);
    BranchesDistinct(p.branches);
    MembershipsDistinct(p.memberships, lower);
    NamesDistinct(p.tables);
    NestedDistinct(p.menuItems);
    NamesDistinct(p.groups);
    NestedDistinct(p.subgroups);
    NamesDistinct(p.assignments);
    OrdersDistinct(p.orders);
    PaymentsDistinct(p.payments);
    JournalsDistinct(p.journals);
  }

  // ---------- The whole pack ----------

  /** Mobile money waits for its provider. */
  predicate MobileMoneyGated(payments: seq<PaymentRow>) {
    forall i :: 0 <= i < |payments| && payments[i].payMethod == "MOMO" ==>
      payments[i].status == "PENDING" && payments[i].captureMode == "ONLINE_PROVIDER"
  }

  lemma PaymentsSafeIffGated(payments: seq<PaymentRow>)
    ensures PaymentsSafe(payments) <==> MobileMoneyGated(payments)
  {
    if PaymentsSafe(payments) {
      forall i | 0 <= i < |payments| && payments[i].payMethod == "MOMO"
        ensures payments[i].status == "PENDING" && payments[i].captureMode == "ONLINE_PROVIDER"
      {
        assert MobileMoneySafe(payments[i]);
      }
    }
  }

  predicate PackSound(p: Pack, lower: string -> string) {
    && RowsDistinct(p, lower) && MobileMoneyGated(p.payments) && SalesSound(p) && JournalsSound(p.journalLines)
    && DocumentsSound(p.bills, p.billLines) && DocumentsSound(p.invoices, p.invoiceLines)
  }

  /** The validator in the terms of its files: with colon-free key fields it accepts exactly the
      packs whose rows are distinct, whose mobile money is gated, and whose amounts are readable
      and add up, order by order, journal by journal and document by document. */
  lemma {:induction false} AcceptsIffSound(p: Pack, lower: string -> string)
    requires KeyFieldsClean(p, lower) && BranchCodesClean(p)
    ensures Accepts(p, lower) <==> PackSound(p, lower)
  {
    KeysUniqueIffRowsDistinct(p, lower);
    PaymentsSafeIffGated(p.payments);
    CleanPacksAreUnmixed(p);
    SalesAcceptedIffSound(p);
    LedgerAcceptedIffSound(p.journalLines);
    DocumentsAcceptedIffSound(p.bills, p.billLines);
    DocumentsAcceptedIffSound(p.invoices, p.invoiceLines);
  }
}
