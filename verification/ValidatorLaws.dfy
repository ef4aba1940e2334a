/** What the validator's acceptance means, free of keys, maps and row order. */
module ValidatorLaws {
  import opened Prelude
  import opened Keys
  import opened Money
  import opened Validator

  // ---------- Small packs ----------

  const NO_ROWS := Pack([], [], [], [], [], [], [], [], [], [], [], [], [], [], [], [], [], [], [], [])

  /** Rows in the sales and journal files only, and at most one per key. */
  predicate IsSmall(p: Pack) {
    && p == NO_ROWS.(orders := p.orders, items := p.items, payments := p.payments, refunds := p.refunds,
                     journals := p.journals, journalLines := p.journalLines)
    && |p.orders| <= 1 && |p.payments| <= 1 && |p.journals| <= 1
  }

  lemma SmallPackHasUniqueKeys(p: Pack, lower: string -> string)
    requires IsSmall(p)
    ensures KeysUnique(p, lower)
  {
    var files := KeyFiles(p, lower);
    forall t | 0 <= t < |files| ensures KeyFileSound(files[t]) {
      assert |files[t].keys| <= 1 && files[t].required == [];
    }
  }

  /** Such a pack is accepted when its sales and its journal lines are. */
  lemma SmallPackIsAccepted(p: Pack, lower: string -> string)
    requires IsSmall(p) && PaymentsSafe(p.payments) && LedgerAccepted(Map(Posting, p.journalLines))
    requires SalesAccepted(Map(FiguresOf, p.orders), Map(ChargeEntry, ItemCharges(p.items)), [],
                           Map(PaymentEntry, p.payments))
    ensures Accepts(p, lower)
  {
    SmallPackHasUniqueKeys(p, lower);
    assert Map(ChargeEntry, p.modifiers) == [];
  }

  lemma OneOrderAccepted(o: OrderFigures, items: seq<Entry<string>>)
    requires OrderParses(o) && o.status != CLOSED && EntriesParse(items) && Total(o.key, items) == Value(o.subtotal)
    requires Value(o.subtotal) + Value(o.tax) - Value(o.discount) == Value(o.total) >= 0
    ensures SalesAccepted([o], items, [], [])
  {
  }

  lemma TotalSnoc<K>(key: K, init: seq<Entry<K>>, e: Entry<K>)
    ensures Total(key, init + [e]) == Total(key, init) + if e.key == key then Value(e.cents) else 0
  {
    assert (init + [e])[..|init|] == init;
  }

  // ---------- Joined keys stand for (branch, order number) ----------

  function ByOrder(c: Charge): Entry<(string, string)> {
    Entry((c.branch, c.number), Amount(c.amount, 2))
  }

  /** Filter and sum over the charges of one order. */
  function ChargedTo(branch: string, number: string, charges: seq<Charge>): int {
    Total((branch, number), Map(ByOrder, charges))
  }

  function ChargeOf(p: PaymentRow): Charge {
    p.charge
  }

  function PaidTo(branch: string, number: string, payments: seq<PaymentRow>): int {
    ChargedTo(branch, number, Map(ChargeOf, payments))
  }

  /** Every charge under the key of an order is for that order. */
  predicate NoMixing(branch: string, number: string, charges: seq<Charge>) {
    forall i :: 0 <= i < |charges| && PairKey(charges[i].branch, charges[i].number) == PairKey(branch, number) ==>
      charges[i].branch == branch && charges[i].number == number
  }

  /** No key of an order collects a charge of another: what the running totals need of a pack. */
  predicate OrdersUnmixed(p: Pack) {
    forall i :: 0 <= i < |p.orders| ==>
      && NoMixing(p.orders[i].branch, p.orders[i].number, ItemCharges(p.items))
      && NoMixing(p.orders[i].branch, p.orders[i].number, p.modifiers)
      && NoMixing(p.orders[i].branch, p.orders[i].number, Map(ChargeOf, p.payments))
  }

  /** Branch codes hold no colon. Order numbers may. */
  predicate BranchCodesClean(p: Pack) {
    && (forall i :: 0 <= i < |p.orders| ==> COLON !in p.orders[i].branch)
    && (forall i :: 0 <= i < |p.items| ==> COLON !in p.items[i].charge.branch)
    && (forall i :: 0 <= i < |p.modifiers| ==> COLON !in p.modifiers[i].branch)
    && (forall i :: 0 <= i < |p.payments| ==> COLON !in p.payments[i].charge.branch)
  }

  lemma MapSnoc<A, B>(f: A -> B, xs: seq<A>)
    requires xs != []
    ensures Map(f, xs)[..|xs| - 1] == Map(f, xs[..|xs| - 1])
    ensures Map(f, xs)[|xs| - 1] == f(xs[|xs| - 1])
  {
  }

  lemma CleanBranchesDoNotMix(branch: string, number: string, charges: seq<Charge>)
    requires COLON !in branch && forall i :: 0 <= i < |charges| ==> COLON !in charges[i].branch
    ensures NoMixing(branch, number, charges)
  {
    forall i | 0 <= i < |charges| && PairKey(charges[i].branch, charges[i].number) == PairKey(branch, number)
      ensures charges[i].branch == branch && charges[i].number == number
    {
      CutAtSeparator(charges[i].branch, charges[i].number, branch, number, SEPARATOR);
    }
  }

  lemma CleanPacksAreUnmixed(p: Pack)
    requires BranchCodesClean(p)
    ensures OrdersUnmixed(p)
  {
    forall i | 0 <= i < |p.orders|
      ensures NoMixing(p.orders[i].branch, p.orders[i].number, ItemCharges(p.items))
      ensures NoMixing(p.orders[i].branch, p.orders[i].number, p.modifiers)
      ensures NoMixing(p.orders[i].branch, p.orders[i].number, Map(ChargeOf, p.payments))
    {
      CleanBranchesDoNotMix(p.orders[i].branch, p.orders[i].number, ItemCharges(p.items));
      CleanBranchesDoNotMix(p.orders[i].branch, p.orders[i].number, p.modifiers);
      CleanBranchesDoNotMix(p.orders[i].branch, p.orders[i].number, Map(ChargeOf, p.payments));
    }
  }

  lemma {:induction false} KeyedSumIsOrderSum(branch: string, number: string, charges: seq<Charge>)
    requires NoMixing(branch, number, charges)
    ensures Total(PairKey(branch, number), Map(ChargeEntry, charges)) == ChargedTo(branch, number, charges)
  {
    if charges != [] {
      KeyedSumIsOrderSum(branch, number, charges[..|charges| - 1]);
      MapSnoc(ChargeEntry, charges);
      MapSnoc(ByOrder, charges);
    }
  }

  lemma PaymentEntriesAreCharges(payments: seq<PaymentRow>)
    ensures Map(PaymentEntry, payments) == Map(ChargeEntry, Map(ChargeOf, payments))
  {
  }

  /** What refers to a payment: its transaction id, or its provider's reference without one. */
  function Reference(p: PaymentRow): string {
    if p.transactionId == "" then p.providerRef else p.transactionId
  }

  function PaymentParts(p: PaymentRow): seq<string> {
    [p.charge.branch, p.charge.number, Reference(p), p.payMethod, p.charge.amount]
  }

  /** For colon-free fields, payments share a natural key exactly when they agree in order,
      reference, method and amount. */
  lemma {:induction false} PaymentKeyIdentifies(p: PaymentRow, q: PaymentRow)
    requires FreeOf(COLON, PaymentParts(p)) && FreeOf(COLON, PaymentParts(q))
    ensures PaymentKey(p) == PaymentKey(q) <==>
              && p.charge == q.charge && Reference(p) == Reference(q) && p.payMethod == q.payMethod
  {
    var a, b := PaymentParts(p), PaymentParts(q);
    if PaymentKey(p) == PaymentKey(q) {
      JoinInjective(a, b, SEPARATOR);
      assert a[0] == b[0] && a[1] == b[1] && a[2] == b[2] && a[3] == b[3] && a[4] == b[4];
    }
  }

  /** The four things that hold of a sound order. */
  predicate OrderSound(p: Pack, o: OrderRow) {
    var charged := ChargedTo(o.branch, o.number, ItemCharges(p.items)) + ChargedTo(o.branch, o.number, p.modifiers);
    var paid := PaidTo(o.branch, o.number, p.payments);
    && charged == Cents(o.subtotal)
    && Cents(o.subtotal) + Cents(o.tax) - Cents(o.discount) == Cents(o.total)
    && (o.status == CLOSED ==> paid == Cents(o.total))
    && paid <= Cents(o.total)
  }

  predicate SalesReadable(p: Pack) {
    && OrdersParse(Map(FiguresOf, p.orders))
    && EntriesParse(Map(ChargeEntry, ItemCharges(p.items))) && EntriesParse(Map(ChargeEntry, p.modifiers))
    && EntriesParse(Map(PaymentEntry, p.payments))
  }

  lemma CentsAreValues(s: string)
    ensures Value(Amount(s, 2)) == Cents(s)
  {
  }

  /** The same four things of one order's figures and the keyed totals. */
  predicate FiguresSound(
    o: OrderFigures, items: seq<Entry<string>>, modifiers: seq<Entry<string>>, payments: seq<Entry<string>>)
  {
    && ChargesAddUp(o, Total(o.key, items) + Total(o.key, modifiers))
    && PaymentsAddUp(o, Total(o.key, payments))
  }

  predicate AllFiguresSound(
    orders: seq<OrderFigures>, items: seq<Entry<string>>, modifiers: seq<Entry<string>>, payments: seq<Entry<string>>)
  {
    forall i :: 0 <= i < |orders| ==> FiguresSound(orders[i], items, modifiers, payments)
  }

  predicate AllOrdersSound(p: Pack) {
    forall i :: 0 <= i < |p.orders| ==> OrderSound(p, p.orders[i])
  }

  lemma OrderSoundIffFiguresSound(p: Pack, o: OrderRow)
    requires OrdersUnmixed(p) && o in p.orders
    ensures OrderSound(p, o) <==>
              FiguresSound(FiguresOf(o), Map(ChargeEntry, ItemCharges(p.items)),
                           Map(ChargeEntry, p.modifiers), Map(PaymentEntry, p.payments))
  {
    KeyedSumIsOrderSum(o.branch, o.number, ItemCharges(p.items));
    KeyedSumIsOrderSum(o.branch, o.number, p.modifiers);
    PaymentEntriesAreCharges(p.payments);
    KeyedSumIsOrderSum(o.branch, o.number, Map(ChargeOf, p.payments));
    CentsAreValues(o.subtotal);
    CentsAreValues(o.tax);
    CentsAreValues(o.discount);
    CentsAreValues(o.total);
  }

  lemma AllSoundIffAllFiguresSound(p: Pack)
    requires OrdersUnmixed(p)
    ensures AllOrdersSound(p) <==>
              AllFiguresSound(Map(FiguresOf, p.orders), Map(ChargeEntry, ItemCharges(p.items)),
                              Map(ChargeEntry, p.modifiers), Map(PaymentEntry, p.payments))
  {
    var figures := Map(FiguresOf, p.orders);
    var items, modifiers := Map(ChargeEntry, ItemCharges(p.items)), Map(ChargeEntry, p.modifiers);
    var payments := Map(PaymentEntry, p.payments);
    forall i | 0 <= i < |p.orders|
      ensures OrderSound(p, p.orders[i]) <==> FiguresSound(figures[i], items, modifiers, payments)
    {
      OrderSoundIffFiguresSound(p, p.orders[i]);
    }
  }

  lemma SplitChecks(
    orders: seq<OrderFigures>, items: seq<Entry<string>>, modifiers: seq<Entry<string>>, payments: seq<Entry<string>>)
    ensures OrdersCharged(orders, items, modifiers) && OrdersPaid(orders, payments)
       <==> AllFiguresSound(orders, items, modifiers, payments)
  {
  }

  /** Soundness and completeness: as long as no order's key collects another's charges, the
      map-accumulating checks pass exactly when all amounts are readable and every order is sound. */
  lemma {:induction false} SalesAcceptedIffOrdersSound(p: Pack)
    requires OrdersUnmixed(p)
    ensures SalesAccepted(Map(FiguresOf, p.orders), Map(ChargeEntry, ItemCharges(p.items)),
                          Map(ChargeEntry, p.modifiers), Map(PaymentEntry, p.payments))
       <==> SalesReadable(p) && AllOrdersSound(p)
  {
    AllSoundIffAllFiguresSound(p);
    SplitChecks(Map(FiguresOf, p.orders), Map(ChargeEntry, ItemCharges(p.items)),
                Map(ChargeEntry, p.modifiers), Map(PaymentEntry, p.payments));
  }

  // ---------- The ledger ----------

  /** Debits and credits over the journals that satisfy a predicate. */
  ghost function SideOver(direction: string, among: string -> bool, lines: seq<Entry<(string, string)>>): int {
    if lines == [] then 0
    else
      var last := lines[|lines| - 1];
      SideOver(direction, among, lines[..|lines| - 1])
      + if last.key.1 == direction && among(last.key.0) then Value(last.cents) else 0
  }

  ghost function NumbersIn(among: string -> bool, lines: seq<Entry<(string, string)>>): set<string> {
    set i | 0 <= i < |lines| && among(lines[i].key.0) :: lines[i].key.0
  }

  lemma {:induction false} NoLinesNoSum<K>(key: K, lines: seq<Entry<K>>)
    requires forall i :: 0 <= i < |lines| ==> lines[i].key != key
    ensures Total(key, lines) == 0
  {
    if lines != [] {
      NoLinesNoSum(key, lines[..|lines| - 1]);
    }
  }

  /** An accepted ledger balances journal by journal, for any number at all. */
  lemma {:induction false} AcceptedLedgerBalancesEverywhere(number: string, lines: seq<Entry<(string, string)>>)
    requires LedgerAccepted(lines)
    ensures Balances(number, lines)
  {
    if i :| 0 <= i < |lines| && lines[i].key.0 == number {
      assert Balances(lines[i].key.0, lines);
    } else {
      NoLinesNoSum((number, DEBIT), lines);
      NoLinesNoSum((number, CREDIT), lines);
    }
  }

  /** Taking one journal out of a union splits the union's sum in two. */
  lemma {:induction false} SideSplits(
    direction: string, number: string, among: string -> bool, rest: string -> bool, lines: seq<Entry<(string, string)>>)
    requires among(number) && !rest(number)
    requires forall n :: n != number ==> among(n) == rest(n)
    ensures SideOver(direction, among, lines) == SideOver(direction, rest, lines) + Total((number, direction), lines)
  {
    if lines != [] {
      SideSplits(direction, number, among, rest, lines[..|lines| - 1]);
    }
  }

  lemma {:induction false} EmptySide(direction: string, among: string -> bool, lines: seq<Entry<(string, string)>>)
    requires forall i :: 0 <= i < |lines| ==> !among(lines[i].key.0)
    ensures SideOver(direction, among, lines) == 0
  {
    if lines != [] {
      EmptySide(direction, among, lines[..|lines| - 1]);
    }
  }

  /** Debits equal credits over any union of journals, in particular over the whole ledger. */
  lemma {:induction false} AnyUnionOfJournalsBalances(among: string -> bool, lines: seq<Entry<(string, string)>>)
    requires LedgerAccepted(lines)
    ensures SideOver(DEBIT, among, lines) == SideOver(CREDIT, among, lines)
    decreases |NumbersIn(among, lines)|
  {
    if i :| 0 <= i < |lines| && among(lines[i].key.0) {
      var number := lines[i].key.0;
      var rest := n => n != number && among(n);
      AcceptedLedgerBalancesEverywhere(number, lines);
      SideSplits(DEBIT, number, among, rest, lines);
      SideSplits(CREDIT, number, among, rest, lines);
      assert number in NumbersIn(among, lines);
      assert NumbersIn(rest, lines) == NumbersIn(among, lines) - {number};
      AnyUnionOfJournalsBalances(rest, lines);
    } else {
      EmptySide(DEBIT, among, lines);
      EmptySide(CREDIT, among, lines);
    }
  }

  // ---------- Row order does not matter ----------

  predicate SameRows<T(==)>(a: seq<T>, b: seq<T>) {
    multiset(a) == multiset(b)
  }

  lemma RemoveLast<T>(a: seq<T>, b: seq<T>) returns (j: nat)
    requires a != [] && SameRows(a, b)
    ensures j < |b| && b[j] == a[|a| - 1]
    ensures SameRows(a[..|a| - 1], b[..j] + b[j + 1..])
  {
    var x := a[|a| - 1];
    assert a == a[..|a| - 1] + [x];
    assert x in multiset(a);
    j :| 0 <= j < |b| && b[j] == x;
    MultisetWithout(a, |a| - 1);
    MultisetWithout(b, j);
    assert a[..|a| - 1] + a[|a| - 1 + 1..] == a[..|a| - 1];
  }

  lemma MultisetWithout<T>(xs: seq<T>, j: nat)
    requires j < |xs|
    ensures multiset(xs[..j] + xs[j + 1..]) == multiset(xs) - multiset{xs[j]}
  {
    assert xs == xs[..j] + [xs[j]] + xs[j + 1..];
  }

  lemma {:induction false} TotalWithout<K>(key: K, entries: seq<Entry<K>>, j: nat)
    requires j < |entries|
    ensures Total(key, entries) == Total(key, entries[..j] + entries[j + 1..])
                                   + if entries[j].key == key then Value(entries[j].cents) else 0
  {
    var n := |entries| - 1;
    if j == n {
      assert entries[..j] + entries[j + 1..] == entries[..n];
    } else {
      TotalWithout(key, entries[..n], j);
      var without := entries[..j] + entries[j + 1..];
      assert without[..|without| - 1] == entries[..n][..j] + entries[..n][j + 1..];
      assert without[|without| - 1] == entries[n];
    }
  }

  lemma {:induction false} TotalIgnoresOrder<K>(key: K, a: seq<Entry<K>>, b: seq<Entry<K>>)
    requires SameRows(a, b)
    ensures Total(key, a) == Total(key, b)
  {
    if a == [] {
      assert b == [] by { assert multiset(b) == multiset{}; assert |multiset(b)| == |b|; }
    } else {
      var j := RemoveLast(a, b);
      TotalIgnoresOrder(key, a[..|a| - 1], b[..j] + b[j + 1..]);
      TotalWithout(key, b, j);
    }
  }

  lemma {:induction false} MapIgnoresOrder<A, B>(f: A -> B, a: seq<A>, b: seq<A>)
    requires SameRows(a, b)
    ensures SameRows(Map(f, a), Map(f, b))
  {
    if a == [] {
      assert b == [] by { assert multiset(b) == multiset{}; assert |multiset(b)| == |b|; }
    } else {
      var j := RemoveLast(a, b);
      var n := |a| - 1;
      MapIgnoresOrder(f, a[..n], b[..j] + b[j + 1..]);
      assert Map(f, a) == Map(f, a[..n]) + [f(a[n])];
      assert Map(f, b) == Map(f, b[..j]) + [f(b[j])] + Map(f, b[j + 1..]);
      assert Map(f, b[..j] + b[j + 1..]) == Map(f, b[..j]) + Map(f, b[j + 1..]);
    }
  }

  lemma SameRowsSameMembers<T>(a: seq<T>, b: seq<T>)
    requires SameRows(a, b)
    ensures forall x :: x in a <==> x in b
  {
    forall x ensures x in a <==> x in b {
      assert x in a <==> x in multiset(a);
      assert x in b <==> x in multiset(b);
    }
  }

  lemma {:induction false} DistinctByCount<T>(xs: seq<T>)
    ensures Distinct(xs) <==> forall x :: multiset(xs)[x] <= 1
  {
    if xs != [] {
      var init, last := xs[..|xs| - 1], xs[|xs| - 1];
      assert xs == init + [last];
      DistinctByCount(init);
      DistinctSnoc(init, last);
      assert multiset(xs) == multiset(init) + multiset{last};
      assert last in init <==> multiset(init)[last] >= 1;
      if Distinct(xs) {
        forall x ensures multiset(xs)[x] <= 1 {
          assert multiset(init)[x] <= 1;
        }
      } else if Distinct(init) {
        assert multiset(xs)[last] >= 2;
      } else {
        var x :| multiset(init)[x] > 1;
        assert multiset(xs)[x] > 1;
      }
    }
  }

  lemma DistinctSnoc<T>(init: seq<T>, last: T)
    ensures Distinct(init + [last]) <==> Distinct(init) && last !in init
  {
    var xs := init + [last];
    if Distinct(xs) {
      forall i | 0 <= i < |init| ensures init[i] != last {
        assert xs[i] != xs[|init|];
      }
      forall i, j | 0 <= i < j < |init| ensures init[i] != init[j] {
        assert xs[i] != xs[j];
      }
    }
  }

  lemma DistinctIgnoresOrder<T>(a: seq<T>, b: seq<T>)
    requires SameRows(a, b)
    ensures Distinct(a) <==> Distinct(b)
  {
    DistinctByCount(a);
    DistinctByCount(b);
  }

  lemma EntriesIgnoreOrder<K>(a: seq<Entry<K>>, b: seq<Entry<K>>)
    requires SameRows(a, b)
    ensures EntriesParse(a) <==> EntriesParse(b)
    ensures forall key :: Total(key, a) == Total(key, b)
  {
    SameRowsSameMembers(a, b);
    assert EntriesParse(a) <==> forall e :: e in a ==> e.cents.Some?;
    assert EntriesParse(b) <==> forall e :: e in b ==> e.cents.Some?;
    forall key ensures Total(key, a) == Total(key, b) {
      TotalIgnoresOrder(key, a, b);
    }
  }

  lemma OrdersIgnoreOrder(
    a: seq<OrderFigures>, b: seq<OrderFigures>,
    items: seq<Entry<string>>, modifiers: seq<Entry<string>>, payments: seq<Entry<string>>)
    requires SameRows(a, b)
    ensures OrdersParse(a) <==> OrdersParse(b)
    ensures AllFiguresSound(a, items, modifiers, payments) <==> AllFiguresSound(b, items, modifiers, payments)
  {
    SameRowsSameMembers(a, b);
    assert OrdersParse(a) <==> forall o :: o in a ==> OrderParses(o);
    assert OrdersParse(b) <==> forall o :: o in b ==> OrderParses(o);
    assert AllFiguresSound(a, items, modifiers, payments) <==>
             forall o :: o in a ==> FiguresSound(o, items, modifiers, payments);
    assert AllFiguresSound(b, items, modifiers, payments) <==>
             forall o :: o in b ==> FiguresSound(o, items, modifiers, payments);
  }

  lemma SalesIgnoreOrder(
    orders: seq<OrderFigures>, items: seq<Entry<string>>, modifiers: seq<Entry<string>>, payments: seq<Entry<string>>,
    orders': seq<OrderFigures>, items': seq<Entry<string>>,
    modifiers': seq<Entry<string>>, payments': seq<Entry<string>>)
    requires SameRows(orders, orders') && SameRows(items, items')
    requires SameRows(modifiers, modifiers') && SameRows(payments, payments')
    ensures SalesAccepted(orders, items, modifiers, payments) <==> SalesAccepted(orders', items', modifiers', payments')
  {
    EntriesIgnoreOrder(items, items');
    EntriesIgnoreOrder(modifiers, modifiers');
    EntriesIgnoreOrder(payments, payments');
    OrdersIgnoreOrder(orders, orders', items, modifiers, payments);
    SplitChecks(orders, items, modifiers, payments);
    SplitChecks(orders', items', modifiers', payments');
    assert forall o :: FiguresSound(o, items, modifiers, payments) <==> FiguresSound(o, items', modifiers', payments');
  }

  lemma LedgerIgnoresOrder(a: seq<Entry<(string, string)>>, b: seq<Entry<(string, string)>>)
    requires SameRows(a, b)
    ensures LedgerAccepted(a) <==> LedgerAccepted(b)
  {
    EntriesIgnoreOrder(a, b);
    SameRowsSameMembers(a, b);
    assert LinesReadable(a) <==> forall e :: e in a ==> LineIsReadable(e);
    assert LinesReadable(b) <==> forall e :: e in b ==> LineIsReadable(e);
    assert JournalsBalance(a) <==> forall e :: e in a ==> Balances(e.key.0, a);
    assert JournalsBalance(b) <==> forall e :: e in b ==> Balances(e.key.0, b);
  }

  lemma DocumentsIgnoreOrder(
    documents: seq<Entry<string>>, lines: seq<Entry<string>>,
    documents': seq<Entry<string>>, lines': seq<Entry<string>>)
    requires SameRows(documents, documents') && SameRows(lines, lines')
    ensures DocumentsAccepted(documents, lines) <==> DocumentsAccepted(documents', lines')
  {
    EntriesIgnoreOrder(lines, lines');
    SameRowsSameMembers(documents, documents');
    assert DocumentsAddUp(documents, lines) <==> forall d :: d in documents ==> DocumentAddsUp(d, lines);
    assert forall d :: DocumentAddsUp(d, lines) <==> DocumentAddsUp(d, lines');
    assert DocumentsAddUp(documents', lines') <==> forall d :: d in documents' ==> DocumentAddsUp(d, lines);
  }

  lemma UniqueIgnoresOrder<T>(f: T -> string, a: seq<T>, b: seq<T>)
    requires SameRows(a, b)
    ensures Distinct(Map(f, a)) <==> Distinct(Map(f, b))
  {
    MapIgnoresOrder(f, a, b);
    DistinctIgnoresOrder(Map(f, a), Map(f, b));
  }

  predicate SameKeyFile(a: KeyFile, b: KeyFile) {
    KeyFileSound(a) <==> KeyFileSound(b)
  }

  lemma SeedFilesIgnoreOrder(p: Pack, q: Pack, lower: string -> string)
    requires SamePack(p, q)
    ensures forall t :: 0 <= t < 4 ==> SameKeyFile(KeyFiles(p, lower)[t], KeyFiles(q, lower)[t])
  {
    SameRowsSameMembers(p.orgs, q.orgs);
    DistinctIgnoresOrder(p.orgs, q.orgs);
    UniqueIgnoresOrder(BranchKey, p.branches, q.branches);
    SameRowsSameMembers(p.users, q.users);
    UniqueIgnoresOrder(lower, p.users, q.users);
    UniqueIgnoresOrder(m => MembershipKey(m, lower), p.memberships, q.memberships);
    assert MembershipKeys(p.memberships, lower) == Map(m => MembershipKey(m, lower), p.memberships);
    assert MembershipKeys(q.memberships, lower) == Map(m => MembershipKey(m, lower), q.memberships);
  }

  lemma MenuFilesIgnoreOrder(p: Pack, q: Pack, lower: string -> string)
    requires SamePack(p, q)
    ensures forall t :: 4 <= t < 9 ==> SameKeyFile(KeyFiles(p, lower)[t], KeyFiles(q, lower)[t])
  {
    UniqueIgnoresOrder(NameKey, p.tables, q.tables);
    UniqueIgnoresOrder(NestedKey, p.menuItems, q.menuItems);
    UniqueIgnoresOrder(NameKey, p.groups, q.groups);
    UniqueIgnoresOrder(NestedKey, p.subgroups, q.subgroups);
    UniqueIgnoresOrder(NameKey, p.assignments, q.assignments);
  }

  lemma SalesFilesIgnoreOrder(p: Pack, q: Pack, lower: string -> string)
    requires SamePack(p, q)
    ensures forall t :: 9 <= t < 12 ==> SameKeyFile(KeyFiles(p, lower)[t], KeyFiles(q, lower)[t])
  {
    UniqueIgnoresOrder(OrderKey, p.orders, q.orders);
    UniqueIgnoresOrder(PaymentKey, p.payments, q.payments);
    UniqueIgnoresOrder(JournalKey, p.journals, q.journals);
  }

  lemma KeysIgnoreOrder(p: Pack, q: Pack, lower: string -> string)
    requires SamePack(p, q)
    ensures KeysUnique(p, lower) <==> KeysUnique(q, lower)
  {
    SeedFilesIgnoreOrder(p, q, lower);
    MenuFilesIgnoreOrder(p, q, lower);
    SalesFilesIgnoreOrder(p, q, lower);
    assert forall t :: 0 <= t < 12 ==> SameKeyFile(KeyFiles(p, lower)[t], KeyFiles(q, lower)[t]);
  }

  /** The same rows in every file, in any order. */
  predicate SamePack(p: Pack, q: Pack) {
    && SameRows(p.orgs, q.orgs) && SameRows(p.branches, q.branches) && SameRows(p.users, q.users)
    && SameRows(p.memberships, q.memberships) && SameRows(p.tables, q.tables) && SameRows(p.menuItems, q.menuItems)
    && SameRows(p.groups, q.groups) && SameRows(p.subgroups, q.subgroups) && SameRows(p.assignments, q.assignments)
    && SameRows(p.orders, q.orders) && SameRows(p.items, q.items) && SameRows(p.modifiers, q.modifiers)
    && SameRows(p.payments, q.payments) && SameRows(p.refunds, q.refunds)
    && SameRows(p.journals, q.journals) && SameRows(p.journalLines, q.journalLines)
    && SameRows(p.bills, q.bills) && SameRows(p.billLines, q.billLines)
    && SameRows(p.invoices, q.invoices) && SameRows(p.invoiceLines, q.invoiceLines)
  }

  /** The verdict on a pack does not depend on the order of the rows in any file. */
  lemma {:induction false} VerdictIgnoresRowOrder(p: Pack, q: Pack, lower: string -> string)
    requires SamePack(p, q)
    ensures Accepts(p, lower) <==> Accepts(q, lower)
  {
    KeysIgnoreOrder(p, q, lower);
    SameRowsSameMembers(p.payments, q.payments);
    assert PaymentsSafe(p.payments) <==> forall r :: r in p.payments ==> MobileMoneySafe(r);
    assert PaymentsSafe(q.payments) <==> forall r :: r in q.payments ==> MobileMoneySafe(r);
    MapIgnoresOrder(FiguresOf, p.orders, q.orders);
    MapIgnoresOrder(ItemCharge, p.items, q.items);
    MapIgnoresOrder(ChargeEntry, ItemCharges(p.items), ItemCharges(q.items));
    MapIgnoresOrder(ChargeEntry, p.modifiers, q.modifiers);
    MapIgnoresOrder(PaymentEntry, p.payments, q.payments);
    SalesIgnoreOrder(
      Map(FiguresOf, p.orders), Map(ChargeEntry, ItemCharges(p.items)),
      Map(ChargeEntry, p.modifiers), Map(PaymentEntry, p.payments),
      Map(FiguresOf, q.orders), Map(ChargeEntry, ItemCharges(q.items)),
      Map(ChargeEntry, q.modifiers), Map(PaymentEntry, q.payments));
    MapIgnoresOrder(Posting, p.journalLines, q.journalLines);
    LedgerIgnoresOrder(Map(Posting, p.journalLines), Map(Posting, q.journalLines));
    MapIgnoresOrder(DocumentEntry, p.bills, q.bills);
    MapIgnoresOrder(LineEntry, p.billLines, q.billLines);
    DocumentsIgnoreOrder(Map(DocumentEntry, p.bills), Map(LineEntry, p.billLines),
                         Map(DocumentEntry, q.bills), Map(LineEntry, q.billLines));
    MapIgnoresOrder(DocumentEntry, p.invoices, q.invoices);
    MapIgnoresOrder(LineEntry, p.invoiceLines, q.invoiceLines);
    DocumentsIgnoreOrder(Map(DocumentEntry, p.invoices), Map(LineEntry, p.invoiceLines),
                         Map(DocumentEntry, q.invoices), Map(LineEntry, q.invoiceLines));
  }
}
