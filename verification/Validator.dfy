/** The pack and its validation: keyed running totals held against each order, journal and
    document. */
module Validator {
  import opened Prelude
  import opened Keys
  import opened Money

  // ---------- The pack ----------

  /** An amount that belongs to an order: an item's subtotal, a modifier's delta, a payment. */
  datatype Charge = Charge(branch: string, number: string, amount: string)

  datatype OrderRow = OrderRow(
    branch: string, number: string, status: string,
    subtotal: string, tax: string, discount: string, total: string)

  datatype PaymentRow = PaymentRow(
    charge: Charge, transactionId: string, providerRef: string,
    payMethod: string, status: string, captureMode: string)

  /** An order item; the line number tells the items of an order apart. */
  datatype ItemRow = ItemRow(charge: Charge, lineNo: string)

  /** A refund of an order's payment, which it names by reference. */
  datatype RefundRow = RefundRow(branch: string, number: string, paymentRef: string)

  datatype JournalRow = JournalRow(org: string, number: string)

  datatype JournalLineRow = JournalLineRow(
    journal: string, direction: string, account: string, amount: string, memo: string)

  /** A vendor bill or a customer invoice; the party is the supplier name or customer code. */
  datatype DocumentRow = DocumentRow(number: string, party: string, subtotal: string, total: string)

  datatype DocumentLineRow = DocumentLineRow(document: string, lineTotal: string)

  datatype BranchRow = BranchRow(org: string, code: string)

  datatype MembershipRow = MembershipRow(email: string, branch: string)

  /** A table, a browse group or an item's browse assignment. */
  datatype NamedRow = NamedRow(branch: string, name: string)

  /** A menu item in its category, or a browse subgroup in its group. */
  datatype NestedRow = NestedRow(branch: string, parent: string, name: string)

  datatype Pack = Pack(
    orgs: seq<string>, branches: seq<BranchRow>, users: seq<string>, memberships: seq<MembershipRow>,
    tables: seq<NamedRow>, menuItems: seq<NestedRow>,
    groups: seq<NamedRow>, subgroups: seq<NestedRow>, assignments: seq<NamedRow>,
    orders: seq<OrderRow>, items: seq<ItemRow>, modifiers: seq<Charge>,
    payments: seq<PaymentRow>, refunds: seq<RefundRow>,
    journals: seq<JournalRow>, journalLines: seq<JournalLineRow>,
    bills: seq<DocumentRow>, billLines: seq<DocumentLineRow>,
    invoices: seq<DocumentRow>, invoiceLines: seq<DocumentLineRow>)

  const CLOSED := "CLOSED"
  const MOMO := "MOMO"
  const PENDING := "PENDING"
  const ONLINE_PROVIDER := "ONLINE_PROVIDER"
  const DEBIT := "DEBIT"
  const CREDIT := "CREDIT"

  // ---------- Natural keys ----------

  function BranchKey(b: BranchRow): string {
    PairKey(b.org, b.code)
  }

  function MembershipKey(m: MembershipRow, lower: string -> string): string {
    PairKey(lower(m.email), m.branch)
  }

  function NameKey(r: NamedRow): string {
    PairKey(r.branch, r.name)
  }

  function NestedKey(r: NestedRow): string {
    Key([r.branch, r.parent, r.name])
  }

  function OrderKey(o: OrderRow): string {
    PairKey(o.branch, o.number)
  }

  /** The natural key of a payment: transaction id, or else provider reference, in the middle. */
  function PaymentKey(p: PaymentRow): string {
    Key([p.charge.branch, p.charge.number,
         if p.transactionId != "" then p.transactionId else p.providerRef,
         p.payMethod, p.charge.amount])
  }

  function JournalKey(j: JournalRow): string {
    PairKey(j.org, j.number)
  }

  // ---------- Amounts under keys ----------

  /** What an amount cell reads as, and the key to add it under. */
  datatype Entry<K> = Entry(key: K, cents: Option<int>)

  function Value(cents: Option<int>): int {
    if cents.Some? then cents.value else 0
  }

  predicate EntriesParse<K>(entries: seq<Entry<K>>) {
    forall i :: 0 <= i < |entries| ==> entries[i].cents.Some?
  }

  /** Filter and sum: all the entries under one key. */
  function Total<K(==)>(key: K, entries: seq<Entry<K>>): int {
    if entries == [] then 0
    else
      var last := entries[|entries| - 1];
      Total(key, entries[..|entries| - 1]) + if last.key == key then Value(last.cents) else 0
  }

  function ChargeEntry(c: Charge): Entry<string> {
    Entry(PairKey(c.branch, c.number), Amount(c.amount, 2))
  }

  function PaymentEntry(p: PaymentRow): Entry<string> {
    ChargeEntry(p.charge)
  }

  function ItemCharge(r: ItemRow): Charge {
    r.charge
  }

  function ItemCharges(items: seq<ItemRow>): seq<Charge> {
    Map(ItemCharge, items)
  }

  function LineEntry(l: DocumentLineRow): Entry<string> {
    Entry(l.document, Amount(l.lineTotal, 2))
  }

  function DocumentEntry(d: DocumentRow): Entry<string> {
    Entry(d.number, Amount(d.subtotal, 2))
  }

  /** A journal line: its key is the journal and the direction. */
  function Posting(l: JournalLineRow): Entry<(string, string)> {
    Entry((l.journal, l.direction), Amount(l.amount, 2))
  }

  /** An order with its amount cells read. */
  datatype OrderFigures = OrderFigures(
    key: string, number: string, status: string,
    subtotal: Option<int>, tax: Option<int>, discount: Option<int>, total: Option<int>)

  function FiguresOf(o: OrderRow): OrderFigures {
    OrderFigures(OrderKey(o), o.number, o.status,
                 Amount(o.subtotal, 2), Amount(o.tax, 2), Amount(o.discount, 2), Amount(o.total, 2))
  }

  // ---------- What the validator accepts ----------

  /** The natural keys of a file, and its cells that a key requires to be filled in. */
  datatype KeyFile = KeyFile(required: seq<string>, keys: seq<string>)

  predicate KeyFileSound(f: KeyFile) {
    "" !in f.required && Distinct(f.keys)
  }

  function MembershipKeys(memberships: seq<MembershipRow>, lower: string -> string): seq<string> {
    Map(m => MembershipKey(m, lower), memberships)
  }

  /** The files whose keys are checked, in the order they are checked. */
  function KeyFiles(p: Pack, lower: string -> string): (files: seq<KeyFile>)
    ensures forall t :: 0 <= t < |files| ==> files[t].required == [] || |files[t].required| == |files[t].keys|
  {
    [KeyFile(p.orgs, p.orgs),
     KeyFile([], Map(BranchKey, p.branches)),
     KeyFile(p.users, Map(lower, p.users)),
     KeyFile([], MembershipKeys(p.memberships, lower)),
     KeyFile([], Map(NameKey, p.tables)),
     KeyFile([], Map(NestedKey, p.menuItems)),
     KeyFile([], Map(NameKey, p.groups)),
     KeyFile([], Map(NestedKey, p.subgroups)),
     KeyFile([], Map(NameKey, p.assignments)),
     KeyFile([], Map(OrderKey, p.orders)),
     KeyFile([], Map(PaymentKey, p.payments)),
     KeyFile([], Map(JournalKey, p.journals))]
  }

  predicate KeysUnique(p: Pack, lower: string -> string) {
    forall t :: 0 <= t < |KeyFiles(p, lower)| ==> KeyFileSound(KeyFiles(p, lower)[t])
  }

  predicate OrderParses(o: OrderFigures) {
    o.subtotal.Some? && o.tax.Some? && o.discount.Some? && o.total.Some?
  }

  predicate OrdersParse(orders: seq<OrderFigures>) {
    forall i :: 0 <= i < |orders| ==> OrderParses(orders[i])
  }

  predicate MobileMoneySafe(p: PaymentRow) {
    p.payMethod == MOMO ==> p.status == PENDING && p.captureMode == ONLINE_PROVIDER
  }

  predicate PaymentsSafe(payments: seq<PaymentRow>) {
    forall i :: 0 <= i < |payments| ==> MobileMoneySafe(payments[i])
  }

  predicate ChargesAddUp(o: OrderFigures, charged: int) {
    && charged == Value(o.subtotal)
    && Value(o.subtotal) + Value(o.tax) - Value(o.discount) == Value(o.total)
  }

  predicate PaymentsAddUp(o: OrderFigures, paid: int) {
    && (o.status == CLOSED ==> paid == Value(o.total))
    && paid <= Value(o.total)
  }

  predicate OrdersCharged(orders: seq<OrderFigures>, items: seq<Entry<string>>, modifiers: seq<Entry<string>>) {
    forall i :: 0 <= i < |orders| ==>
      ChargesAddUp(orders[i], Total(orders[i].key, items) + Total(orders[i].key, modifiers))
  }

  predicate OrdersPaid(orders: seq<OrderFigures>, payments: seq<Entry<string>>) {
    forall i :: 0 <= i < |orders| ==> PaymentsAddUp(orders[i], Total(orders[i].key, payments))
  }

  predicate LineIsReadable(line: Entry<(string, string)>) {
    (line.key.1 == DEBIT || line.key.1 == CREDIT) && line.cents.Some?
  }

  predicate LinesReadable(lines: seq<Entry<(string, string)>>) {
    forall i :: 0 <= i < |lines| ==> LineIsReadable(lines[i])
  }

  predicate Balances(number: string, lines: seq<Entry<(string, string)>>) {
    Total((number, DEBIT), lines) == Total((number, CREDIT), lines)
  }

  predicate JournalsBalance(lines: seq<Entry<(string, string)>>) {
    forall i :: 0 <= i < |lines| ==> Balances(lines[i].key.0, lines)
  }

  predicate DocumentAddsUp(document: Entry<string>, lines: seq<Entry<string>>) {
    document.cents.Some? && Total(document.key, lines) == document.cents.value
  }

  predicate DocumentsAddUp(documents: seq<Entry<string>>, lines: seq<Entry<string>>) {
    forall i :: 0 <= i < |documents| ==> DocumentAddsUp(documents[i], lines)
  }

  /** The checks on orders and payments. */
  predicate SalesAccepted(
    orders: seq<OrderFigures>, items: seq<Entry<string>>, modifiers: seq<Entry<string>>, payments: seq<Entry<string>>)
  {
    && OrdersParse(orders)
    && EntriesParse(items) && EntriesParse(modifiers) && EntriesParse(payments)
    && OrdersCharged(orders, items, modifiers) && OrdersPaid(orders, payments)
  }

  predicate LedgerAccepted(lines: seq<Entry<(string, string)>>) {
    LinesReadable(lines) && JournalsBalance(lines)
  }

  predicate DocumentsAccepted(documents: seq<Entry<string>>, lines: seq<Entry<string>>) {
    EntriesParse(lines) && DocumentsAddUp(documents, lines)
  }

  predicate Accepts(p: Pack, lower: string -> string) {
    && KeysUnique(p, lower)
    && PaymentsSafe(p.payments)
    && SalesAccepted(Map(FiguresOf, p.orders), Map(ChargeEntry, ItemCharges(p.items)),
                     Map(ChargeEntry, p.modifiers), Map(PaymentEntry, p.payments))
    && LedgerAccepted(Map(Posting, p.journalLines))
    && DocumentsAccepted(Map(DocumentEntry, p.bills), Map(LineEntry, p.billLines))
    && DocumentsAccepted(Map(DocumentEntry, p.invoices), Map(LineEntry, p.invoiceLines))
  }

  /** The keys that later results rely on. */
  lemma UniqueKeys(p: Pack, lower: string -> string)
    requires KeysUnique(p, lower)
    ensures Distinct(p.orgs) && Distinct(Map(BranchKey, p.branches)) && Distinct(Map(lower, p.users))
    ensures Distinct(Map(OrderKey, p.orders)) && Distinct(Map(PaymentKey, p.payments))
    ensures Distinct(Map(JournalKey, p.journals))
  {
    var files := KeyFiles(p, lower);
    assert KeyFileSound(files[0]) && KeyFileSound(files[1]) && KeyFileSound(files[2]);
    assert KeyFileSound(files[9]) && KeyFileSound(files[10]) && KeyFileSound(files[11]);
  }

  // ---------- The checks, in the order they run ----------

  datatype Fault =
    | MissingField
    | DuplicateKey(key: string)
    | BadAmount(key: string)
    | BadDirection(direction: string)
    | UnsafeMobileMoney
    | SubtotalMismatch(number: string)
    | TotalMismatch(number: string)
    | ClosedNotPaidExactly(number: string)
    | Overpaid(number: string)
    | JournalUnbalanced(number: string)
    | LineTotalMismatch(number: string)

  // ---------- What each error says ----------

  /** The first of the entries without a readable amount has this key. */
  predicate FirstUnreadable(key: string, entries: seq<Entry<string>>) {
    exists i :: 0 <= i < |entries| && entries[i].cents.None? && entries[i].key == key && EntriesParse(entries[..i])
  }

  predicate BlamesRows(fault: Fault, orders: seq<OrderFigures>, payments: seq<PaymentRow>) {
    match fault
    case BadAmount(number) =>
      exists i :: 0 <= i < |orders| && orders[i].number == number && !OrderParses(orders[i]) && OrdersParse(orders[..i])
    case UnsafeMobileMoney => OrdersParse(orders) && !PaymentsSafe(payments)
    case _ => false
  }

  predicate BlamesCharges(
    fault: Fault, orders: seq<OrderFigures>, items: seq<Entry<string>>, modifiers: seq<Entry<string>>)
  {
    match fault
    case BadAmount(key) =>
      FirstUnreadable(key, items) || (EntriesParse(items) && FirstUnreadable(key, modifiers))
    case SubtotalMismatch(number) =>
      exists i :: 0 <= i < |orders| && orders[i].number == number && OrdersCharged(orders[..i], items, modifiers)
        && Total(orders[i].key, items) + Total(orders[i].key, modifiers) != Value(orders[i].subtotal)
    case TotalMismatch(number) =>
      exists i :: 0 <= i < |orders| && orders[i].number == number && OrdersCharged(orders[..i], items, modifiers)
        && Total(orders[i].key, items) + Total(orders[i].key, modifiers) == Value(orders[i].subtotal)
        && Value(orders[i].subtotal) + Value(orders[i].tax) - Value(orders[i].discount) != Value(orders[i].total)
    case _ => false
  }

  predicate BlamesPayments(fault: Fault, orders: seq<OrderFigures>, payments: seq<Entry<string>>) {
    match fault
    case BadAmount(key) => FirstUnreadable(key, payments)
    case ClosedNotPaidExactly(number) =>
      exists i :: 0 <= i < |orders| && orders[i].number == number && OrdersPaid(orders[..i], payments)
        && orders[i].status == CLOSED && Total(orders[i].key, payments) != Value(orders[i].total)
    case Overpaid(number) =>
      exists i :: 0 <= i < |orders| && orders[i].number == number && OrdersPaid(orders[..i], payments)
        && orders[i].status != CLOSED && Total(orders[i].key, payments) > Value(orders[i].total)
    case _ => false
  }

  /** The line at i is the first that cannot be read. */
  predicate FirstBadLine(lines: seq<Entry<(string, string)>>, i: nat) {
    i < |lines| && LinesReadable(lines[..i]) && !LineIsReadable(lines[i])
  }

  predicate BlamesJournals(fault: Fault, lines: seq<Entry<(string, string)>>) {
    match fault
    case BadDirection(direction) =>
      exists i :: 0 <= i < |lines| && FirstBadLine(lines, i) && lines[i].key.1 == direction
                  && direction != DEBIT && direction != CREDIT
    case BadAmount(journal) =>
      exists i :: 0 <= i < |lines| && FirstBadLine(lines, i) && lines[i].key.0 == journal && lines[i].cents.None?
    case JournalUnbalanced(number) =>
      LinesReadable(lines) && !Balances(number, lines)
      && exists i :: 0 <= i < |lines| && lines[i].key.0 == number
                     && forall j :: 0 <= j < i ==> Balances(lines[j].key.0, lines)
    case _ => false
  }

  predicate BlamesDocuments(fault: Fault, documents: seq<Entry<string>>, lines: seq<Entry<string>>) {
    match fault
    case BadAmount(key) =>
      FirstUnreadable(key, lines) || (EntriesParse(lines) && FirstUnreadable(key, documents))
    case LineTotalMismatch(number) =>
      exists i :: 0 <= i < |documents| && documents[i].key == number && documents[i].cents.Some?
        && DocumentsAddUp(documents[..i], lines) && Total(number, lines) != documents[i].cents.value
    case _ => false
  }

  /** The first row at fault: a required cell empty, or a key that occurred before. */
  predicate BlamesKeyFile(fault: Fault, f: KeyFile) {
    match fault
    case MissingField =>
      exists j :: 0 <= j < |f.required| && j <= |f.keys|
        && f.required[j] == "" && "" !in f.required[..j] && Distinct(f.keys[..j])
    case DuplicateKey(key) =>
      exists j :: 0 <= j < |f.keys| && (j < |f.required| ==> "" !in f.required[..j + 1])
        && f.keys[j] == key && key in f.keys[..j] && Distinct(f.keys[..j])
    case _ => false
  }

  /** The first file at fault, and what the error says of it. */
  predicate BlamesKeys(fault: Fault, files: seq<KeyFile>) {
    exists t :: 0 <= t < |files| && BlamesKeyFile(fault, files[t]) && forall s :: 0 <= s < t ==> KeyFileSound(files[s])
  }

  /** The first check that fails decides the error: keys, rows, charges, payments, journals, bills
      and invoices, in this order. */
  predicate BlamesPack(fault: Fault, p: Pack, lower: string -> string) {
    var orders, items := Map(FiguresOf, p.orders), Map(ChargeEntry, ItemCharges(p.items));
    var modifiers, payments := Map(ChargeEntry, p.modifiers), Map(PaymentEntry, p.payments);
    if !KeysUnique(p, lower) then BlamesKeys(fault, KeyFiles(p, lower))
    else if !OrdersParse(orders) || !PaymentsSafe(p.payments) then BlamesRows(fault, orders, p.payments)
    else if !EntriesParse(items) || !EntriesParse(modifiers) || !OrdersCharged(orders, items, modifiers) then
      BlamesCharges(fault, orders, items, modifiers)
    else if !EntriesParse(payments) || !OrdersPaid(orders, payments) then BlamesPayments(fault, orders, payments)
    else if !LedgerAccepted(Map(Posting, p.journalLines)) then BlamesJournals(fault, Map(Posting, p.journalLines))
    else if !DocumentsAccepted(Map(DocumentEntry, p.bills), Map(LineEntry, p.billLines)) then
      BlamesDocuments(fault, Map(DocumentEntry, p.bills), Map(LineEntry, p.billLines))
    else BlamesDocuments(fault, Map(DocumentEntry, p.invoices), Map(LineEntry, p.invoiceLines))
  }

  function Lookup(totals: map<string, int>, key: string): int {
    if key in totals then totals[key] else 0
  }

  /** One pass that adds every entry into the map; stops at the first unreadable amount. */
  method Accumulate(start: map<string, int>, entries: seq<Entry<string>>)
    returns (result: Result<map<string, int>, Fault>)
    ensures result.Ok? <==> EntriesParse(entries)
    ensures result.Err? ==> result.error.BadAmount? && FirstUnreadable(result.error.key, entries)
    ensures result.Ok? ==> forall k :: Lookup(result.value, k) == Lookup(start, k) + Total(k, entries)
  {
    var totals := start;
    for i := 0 to |entries|
      invariant EntriesParse(entries[..i])
      invariant forall k :: Lookup(totals, k) == Lookup(start, k) + Total(k, entries[..i])
    {
      var e := entries[i];
      assert entries[..i + 1][..i] == entries[..i];
      if e.cents.None? {
        return Err(BadAmount(e.key));
      }
      totals := totals[e.key := Lookup(totals, e.key) + e.cents.value];
    }
    assert entries[..|entries|] == entries;
    return Ok(totals);
  }

  method CheckKeyFile(f: KeyFile) returns (fault: Option<Fault>)
    requires f.required == [] || |f.required| == |f.keys|
    ensures fault.None? <==> KeyFileSound(f)
    ensures fault.Some? ==> BlamesKeyFile(fault.value, f)
  {
    var n := 0;
    while n < |f.required| && f.required[n] != ""
      invariant n <= |f.required| && "" !in f.required[..n]
    {
      n := n + 1;
    }
    var read := if n < |f.required| then f.keys[..n] else f.keys;
    var duplicate := AssertUnique(read);
    if duplicate.Some? {
      ghost var j :| 0 <= j < |read| && Distinct(read[..j]) && read[j] == duplicate.value && read[j] in read[..j];
      assert f.keys[..j] == read[..j];
      assert j < |f.required| ==> forall c :: c in f.required[..j + 1] ==> c in f.required[..n];
      assert f.keys[j] in f.keys[..j];
      return Some(DuplicateKey(duplicate.value));
    }
    if n < |f.required| {
      return Some(MissingField);
    }
    assert f.required[..n] == f.required;
    return None;
  }

  /** The files are checked one after the other, and the error is about the first one at fault. */
  method CheckKeys(p: Pack, lower: string -> string) returns (fault: Option<Fault>)
    ensures fault.None? <==> KeysUnique(p, lower)
    ensures fault.Some? ==> BlamesKeys(fault.value, KeyFiles(p, lower))
  {
    var files := KeyFiles(p, lower);
    for t := 0 to |files|
      invariant forall s :: 0 <= s < t ==> KeyFileSound(files[s])
    {
      fault := CheckKeyFile(files[t]);
      if fault.Some? {
        return;
      }
    }
    fault := None;
  }

  method CheckRows(orders: seq<OrderFigures>, payments: seq<PaymentRow>) returns (fault: Option<Fault>)
    ensures fault.None? <==> OrdersParse(orders) && PaymentsSafe(payments)
    ensures fault.Some? ==> BlamesRows(fault.value, orders, payments)
  {
    for i := 0 to |orders|
      invariant OrdersParse(orders[..i])
    {
      if !OrderParses(orders[i]) {
        return Some(BadAmount(orders[i].number));
      }
      assert orders[..i + 1] == orders[..i] + [orders[i]];
    }
    assert orders[..|orders|] == orders;
    for i := 0 to |payments|
      invariant forall j :: 0 <= j < i ==> MobileMoneySafe(payments[j])
    {
      if !MobileMoneySafe(payments[i]) {
        return Some(UnsafeMobileMoney);
      }
    }
    return None;
  }

  /** Item subtotals and modifier deltas run into one map, which each order is held against. */
  method CheckCharges(orders: seq<OrderFigures>, items: seq<Entry<string>>, modifiers: seq<Entry<string>>)
    returns (fault: Option<Fault>)
    ensures fault.None? <==> EntriesParse(items) && EntriesParse(modifiers) && OrdersCharged(orders, items, modifiers)
    ensures fault.Some? ==> BlamesCharges(fault.value, orders, items, modifiers)
  {
    var itemTotals := Accumulate(map[], items);
    if itemTotals.Err? {
      return Some(itemTotals.error);
    }
    var totals := Accumulate(itemTotals.value, modifiers);
    if totals.Err? {
      return Some(totals.error);
    }
    for i := 0 to |orders|
      invariant forall j :: 0 <= j < i ==>
                  ChargesAddUp(orders[j], Total(orders[j].key, items) + Total(orders[j].key, modifiers))
    {
      var o := orders[i];
      if Lookup(totals.value, o.key) != Value(o.subtotal) {
        return Some(SubtotalMismatch(o.number));
      }
      if Value(o.subtotal) + Value(o.tax) - Value(o.discount) != Value(o.total) {
        return Some(TotalMismatch(o.number));
      }
    }
    return None;
  }

  method CheckPayments(orders: seq<OrderFigures>, payments: seq<Entry<string>>) returns (fault: Option<Fault>)
    ensures fault.None? <==> EntriesParse(payments) && OrdersPaid(orders, payments)
    ensures fault.Some? ==> BlamesPayments(fault.value, orders, payments)
  {
    var paid := Accumulate(map[], payments);
    if paid.Err? {
      return Some(paid.error);
    }
    for i := 0 to |orders|
      invariant forall j :: 0 <= j < i ==> PaymentsAddUp(orders[j], Total(orders[j].key, payments))
    {
      var o := orders[i];
      var amount := Lookup(paid.value, o.key);
      if o.status == CLOSED && amount != Value(o.total) {
        return Some(ClosedNotPaidExactly(o.number));
      }
      if amount > Value(o.total) {
        return Some(Overpaid(o.number));
      }
    }
    return None;
  }

  datatype Sides = Sides(debit: int, credit: int)

  function SidesOf(number: string, lines: seq<Entry<(string, string)>>): Sides {
    Sides(Total((number, DEBIT), lines), Total((number, CREDIT), lines))
  }

  function SidesIn(totals: map<string, Sides>, number: string): Sides {
    if number in totals then totals[number] else Sides(0, 0)
  }

  /** The journal numbers in order of first appearance. */
  function JournalsIn(lines: seq<Entry<(string, string)>>): seq<string> {
    if lines == [] then []
    else
      var init, number := JournalsIn(lines[..|lines| - 1]), lines[|lines| - 1].key.0;
      if number in init then init else init + [number]
  }

  lemma {:induction false} JournalsInExactly(lines: seq<Entry<(string, string)>>)
    ensures forall j :: 0 <= j < |lines| ==> lines[j].key.0 in JournalsIn(lines)
    ensures forall n :: n in JournalsIn(lines) ==> exists j :: 0 <= j < |lines| && lines[j].key.0 == n
  {
    if lines != [] {
      var last := |lines| - 1;
      JournalsInExactly(lines[..last]);
      forall n | n in JournalsIn(lines) ensures exists j :: 0 <= j < |lines| && lines[j].key.0 == n {
        if n in JournalsIn(lines[..last]) {
          var j :| 0 <= j < last && lines[..last][j].key.0 == n;
          assert lines[j].key.0 == n;
        } else {
          assert lines[last].key.0 == n;
        }
      }
      forall j | 0 <= j < |lines| ensures lines[j].key.0 in JournalsIn(lines) {
        assert j < last ==> lines[j].key.0 == lines[..last][j].key.0;
      }
    }
  }

  /** Before a journal's first line there are only lines of the journals listed before it. */
  lemma {:induction false} FirstAppearance(lines: seq<Entry<(string, string)>>, k: nat) returns (i: nat)
    requires k < |JournalsIn(lines)|
    ensures i < |lines| && lines[i].key.0 == JournalsIn(lines)[k]
    ensures forall j :: 0 <= j < i ==> lines[j].key.0 in JournalsIn(lines)[..k]
  {
    var last := |lines| - 1;
    var before := JournalsIn(lines[..last]);
    if k < |before| {
      i := FirstAppearance(lines[..last], k);
      assert JournalsIn(lines)[..k] == before[..k];
    } else {
      i := last;
      JournalsInExactly(lines[..last]);
      assert JournalsIn(lines)[..k] == before;
      assert forall j :: 0 <= j < last ==> lines[j] == lines[..last][j];
    }
  }

  /** The two totals of a journal with one more line on them. */
  function WithLine(rec: Sides, l: Entry<(string, string)>): Sides {
    Sides(rec.debit + (if l.key.1 == DEBIT then Value(l.cents) else 0),
          rec.credit + (if l.key.1 == CREDIT then Value(l.cents) else 0))
  }

  lemma SidesNext(number: string, lines: seq<Entry<(string, string)>>, i: nat)
    requires i < |lines|
    ensures var before, l := SidesOf(number, lines[..i]), lines[i];
            SidesOf(number, lines[..i + 1]) == if l.key.0 == number then WithLine(before, l) else before
  {
    assert lines[..i + 1][..i] == lines[..i];
    assert lines[i].key == (lines[i].key.0, lines[i].key.1);
  }

  lemma TallyNext(totals: map<string, Sides>, after: map<string, Sides>, lines: seq<Entry<(string, string)>>, i: nat)
    requires i < |lines|
    requires forall n :: SidesIn(totals, n) == SidesOf(n, lines[..i])
    requires after == totals[lines[i].key.0 := WithLine(SidesIn(totals, lines[i].key.0), lines[i])]
    ensures forall n :: SidesIn(after, n) == SidesOf(n, lines[..i + 1])
  {
    forall n ensures SidesIn(after, n) == SidesOf(n, lines[..i + 1]) {
      SidesNext(n, lines, i);
    }
  }

  /** The journals in order of first appearance, with both of their totals. */
  method TallyJournals(lines: seq<Entry<(string, string)>>)
    returns (fault: Option<Fault>, totals: map<string, Sides>, numbers: seq<string>)
    ensures fault.None? <==> LinesReadable(lines)
    ensures fault.Some? ==> BlamesJournals(fault.value, lines)
    ensures fault.None? ==> numbers == JournalsIn(lines)
    ensures fault.None? ==> forall n :: SidesIn(totals, n) == SidesOf(n, lines)
  {
    totals, numbers := map[], [];
    for i := 0 to |lines|
      invariant LinesReadable(lines[..i])
      invariant numbers == JournalsIn(lines[..i])
      invariant forall n :: n in totals <==> n in numbers
      invariant forall n :: SidesIn(totals, n) == SidesOf(n, lines[..i])
    {
      var l := lines[i];
      var journal, direction := l.key.0, l.key.1;
      assert lines[..i + 1][..i] == lines[..i];
      if direction != DEBIT && direction != CREDIT {
        return Some(BadDirection(direction)), totals, numbers;
      }
      var rec := SidesIn(totals, journal);
      if l.cents.None? {
        return Some(BadAmount(journal)), totals, numbers;
      }
      if direction == DEBIT {
        rec := rec.(debit := rec.debit + l.cents.value);
      }
      if direction == CREDIT {
        rec := rec.(credit := rec.credit + l.cents.value);
      }
      if journal !in totals {
        numbers := numbers + [journal];
      }
      TallyNext(totals, totals[journal := rec], lines, i);
      totals := totals[journal := rec];
    }
    assert lines[..|lines|] == lines;
    fault := None;
  }

  method CheckJournals(lines: seq<Entry<(string, string)>>) returns (fault: Option<Fault>)
    ensures fault.None? <==> LedgerAccepted(lines)
    ensures fault.Some? ==> BlamesJournals(fault.value, lines)
  {
    var bad, totals, numbers := TallyJournals(lines);
    if bad.Some? {
      return bad;
    }
    JournalsInExactly(lines);
    for k := 0 to |numbers|
      invariant forall j :: 0 <= j < k ==> Balances(numbers[j], lines)
    {
      var rec := SidesIn(totals, numbers[k]);
      assert numbers[k] in numbers;
      if rec.debit != rec.credit {
        ghost var i := FirstAppearance(lines, k);
        assert forall j :: 0 <= j < i ==> Balances(lines[j].key.0, lines);
        return Some(JournalUnbalanced(numbers[k]));
      }
    }
    return None;
  }

  method CheckDocuments(documents: seq<Entry<string>>, lines: seq<Entry<string>>) returns (fault: Option<Fault>)
    ensures fault.None? <==> DocumentsAccepted(documents, lines)
    ensures fault.Some? ==> BlamesDocuments(fault.value, documents, lines)
  {
    var totals := Accumulate(map[], lines);
    if totals.Err? {
      return Some(totals.error);
    }
    for i := 0 to |documents|
      invariant forall j :: 0 <= j < i ==> DocumentAddsUp(documents[j], lines)
      invariant EntriesParse(documents[..i])
    {
      var d := documents[i];
      if d.cents.None? {
        return Some(BadAmount(d.key));
      }
      if Lookup(totals.value, d.key) != d.cents.value {
        return Some(LineTotalMismatch(d.key));
      }
      assert documents[..i + 1] == documents[..i] + [d];
    }
    return None;
  }

  /** The validator throws at the first failing check; it is silent exactly on the packs that
      meet all of them, each stated as a sum over the rows. */
  method ValidatePack(p: Pack, lower: string -> string) returns (fault: Option<Fault>)
    ensures fault.None? <==> Accepts(p, lower)
    ensures fault.Some? ==> BlamesPack(fault.value, p, lower)
  {
    fault := CheckKeys(p, lower);
    if fault.Some? { return; }
    var orders := Map(FiguresOf, p.orders);
    fault := CheckRows(orders, p.payments);
    if fault.Some? { return; }
    fault := CheckCharges(orders, Map(ChargeEntry, ItemCharges(p.items)), Map(ChargeEntry, p.modifiers));
    if fault.Some? { return; }
    fault := CheckPayments(orders, Map(PaymentEntry, p.payments));
    if fault.Some? { return; }
    fault := CheckJournals(Map(Posting, p.journalLines));
    if fault.Some? { return; }
    fault := CheckDocuments(Map(DocumentEntry, p.bills), Map(LineEntry, p.billLines));
    if fault.Some? { return; }
    fault := CheckDocuments(Map(DocumentEntry, p.invoices), Map(LineEntry, p.invoiceLines));
  }
}
