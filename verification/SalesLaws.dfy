/** What the sales import guarantees about the stored items and payments, for any store it starts
    from: sums over the stored rows of an order against sums over the file under its key. */
module SalesLaws {
  import opened Prelude
  import opened Keys
  import opened Money
  import opened Tables
  import opened OwnedRows
  import opened Validator
  import opened ValidatorLaws
  import opened SalesImport
  import opened SalesSuccess

  // ---------- The file's side ----------

  function FiledItem(r: ItemRow): Filed {
    Filed(ItemId(r), ItemKey(r), Cents(r.charge.amount))
  }

  function FiledItems(p: Pack): seq<Filed> {
    Map(FiledItem, p.items)
  }

  function FiledPayment(p: PaymentRow): Filed {
    Filed(PaymentId(p), ChargeKey(p), Cents(p.charge.amount))
  }

  function FiledPayments(p: Pack): seq<Filed> {
    Map(FiledPayment, p.payments)
  }

  /** The sums are the ones the validator holds against each order. */
  lemma {:induction false} FiledItemsTotal(key: string, items: seq<ItemRow>)
    ensures SumUnder(key, Map(FiledItem, items)) == Total(key, Map(ChargeEntry, ItemCharges(items)))
  {
    if items != [] {
      var n := |items| - 1;
      FiledItemsTotal(key, items[..n]);
      MapSnoc(FiledItem, items);
      MapSnoc(ItemCharge, items);
      MapSnoc(ChargeEntry, ItemCharges(items));
      CentsAreValues(items[n].charge.amount);
    }
  }

  lemma {:induction false} FiledPaymentsTotal(key: string, payments: seq<PaymentRow>)
    ensures SumUnder(key, Map(FiledPayment, payments)) == Total(key, Map(PaymentEntry, payments))
  {
    if payments != [] {
      var n := |payments| - 1;
      FiledPaymentsTotal(key, payments[..n]);
      MapSnoc(FiledPayment, payments);
      MapSnoc(PaymentEntry, payments);
      CentsAreValues(payments[n].charge.amount);
    }
  }

  // ---------- The store's side ----------

  /** Filter and sum over the stored payments, and over the stored items, of one order. */
  function PaidIn(orderId: Id, payments: seq<Payment>): int {
    SumFor(PaymentView, orderId, payments)
  }

  function ItemsIn(orderId: Id, items: seq<Item>): int {
    SumFor(ItemView, orderId, items)
  }

  lemma {:induction false} HardeningKeepsSums(orderId: Id, payments: seq<Payment>)
    ensures PaidIn(orderId, Map(Harden, payments)) == PaidIn(orderId, payments)
  {
    if payments != [] {
      HardeningKeepsSums(orderId, payments[..|payments| - 1]);
      MapSnoc(Harden, payments);
    }
  }

  /** The file's items, and payments, that will not arrive at this store. */
  function LostItems(held: seq<Item>, p: Pack): seq<Filed> {
    Lost(ItemView, held, PackIds(p.orders), FiledItems(p))
  }

  function LostPayments(held: seq<Payment>, p: Pack): seq<Filed> {
    Lost(PaymentView, held, PackIds(p.orders), FiledPayments(p))
  }

  lemma ItemsAreMade(index: map<string, Id>, rows: seq<ItemRow>)
    requires ItemsResolve(index, rows)
    ensures AllMadeFrom(ItemView, ItemsOf(index, rows), Map(FiledItem, rows), index)
  {
    forall i | 0 <= i < |rows| ensures MadeFrom(ItemView(ItemsOf(index, rows)[i]), FiledItem(rows[i]), index) {
      assert ItemKey(rows[i]) in index;
    }
  }

  lemma PaymentsAreMade(branches: Branches, index: map<string, Id>, rows: seq<PaymentRow>)
    requires PaymentsResolve(branches, index, rows)
    ensures AllMadeFrom(PaymentView, PaymentsOf(branches, index, rows), Map(FiledPayment, rows), index)
  {
    forall i | 0 <= i < |rows|
      ensures MadeFrom(PaymentView(PaymentsOf(branches, index, rows)[i]), FiledPayment(rows[i]), index)
    {
      assert PaymentResolves(branches, index, rows[i]);
    }
  }

  /** When the payments were written, the stored items are those written. */
  lemma ItemsAfter(db: Db, branches: Branches, p: Pack)
    requires PaymentsWritten(Import(db, branches, p).1)
    ensures BranchesKnown(branches, p.orders) && ItemsResolve(Index(db, branches, p.orders), p.items)
    ensures Import(db, branches, p).0.orders == OrdersAfter(db, branches, p.orders)
    ensures Import(db, branches, p).0.items == WrittenItems(db, branches, p)
  {
  }

  lemma PaymentsAfter(db: Db, branches: Branches, p: Pack, orderId: Id)
    requires PaymentsWritten(Import(db, branches, p).1)
    ensures BranchesKnown(branches, p.orders)
    ensures PaymentsResolve(branches, Index(db, branches, p.orders), p.payments)
    ensures PaidIn(orderId, Import(db, branches, p).0.payments) == PaidIn(orderId, Written(db, branches, p))
  {
    HardeningKeepsSums(orderId, Written(db, branches, p));
  }

  /** The exact sum of a pack order's items after the import, whatever the store held before: what
      the file has under its key, less what is lost. */
  lemma {:induction false} StoredItemsOfOrder(db: Db, branches: Branches, p: Pack, i: nat)
    requires Ready(db, branches, p.orders) && PaymentsWritten(Import(db, branches, p).1) && i < |p.orders|
    ensures var key := OrderKey(p.orders[i]);
            ItemsIn(RowId(p.orders[i]), Import(db, branches, p).0.items)
            == SumUnder(key, FiledItems(p)) - SumUnder(key, LostItems(db.items, p))
  {
    var index, ids := Index(db, branches, p.orders), ImportedIds(db, branches, p.orders);
    ItemsAfter(db, branches, p);
    ItemsAreMade(index, p.items);
    OnlyItsKey(db, branches, p.orders, i);
    ImportedIdsAreThePacks(db, branches, p.orders);
    assert PackIds(p.orders)[i] == RowId(p.orders[i]);
    ByItemId();
    RecreatedSum(ItemView, SameItem, db.items, ids, ItemsOf(index, p.items), FiledItems(p), index,
                 OrderKey(p.orders[i]), RowId(p.orders[i]));
    SameOrdersSameLosses(ItemView, db.items, ids, PackIds(p.orders), FiledItems(p));
  }

  /** The same for its payments. */
  lemma {:induction false} StoredPaymentsOfOrder(db: Db, branches: Branches, p: Pack, i: nat)
    requires Ready(db, branches, p.orders) && PaymentsWritten(Import(db, branches, p).1) && i < |p.orders|
    ensures var key := OrderKey(p.orders[i]);
            PaidIn(RowId(p.orders[i]), Import(db, branches, p).0.payments)
            == SumUnder(key, FiledPayments(p)) - SumUnder(key, LostPayments(db.payments, p))
  {
    var index, ids := Index(db, branches, p.orders), ImportedIds(db, branches, p.orders);
    PaymentsAfter(db, branches, p, RowId(p.orders[i]));
    PaymentsAreMade(branches, index, p.payments);
    OnlyItsKey(db, branches, p.orders, i);
    ImportedIdsAreThePacks(db, branches, p.orders);
    assert PackIds(p.orders)[i] == RowId(p.orders[i]);
    ByPaymentId();
    RecreatedSum(PaymentView, SamePayment, db.payments, ids, PaymentsOf(branches, index, p.payments),
                 FiledPayments(p), index, OrderKey(p.orders[i]), RowId(p.orders[i]));
    SameOrdersSameLosses(PaymentView, db.payments, ids, PackIds(p.orders), FiledPayments(p));
  }

  lemma MadeForImported<T>(
    view: T -> Owned, creates: seq<T>, filed: seq<Filed>, db: Db, branches: Branches, rows: seq<OrderRow>)
    requires BranchesKnown(branches, rows) && AllMadeFrom(view, creates, filed, Index(db, branches, rows))
    ensures forall c :: c in creates ==> view(c).orderId in ImportedIds(db, branches, rows)
  {
    var imported := Imported(db, branches, rows);
    forall c | c in creates ensures view(c).orderId in ImportedIds(db, branches, rows) {
      var i :| 0 <= i < |creates| && creates[i] == c;
      assert MadeFrom(view(creates[i]), filed[i], Index(db, branches, rows));
      var s := IndexSound(branches, imported, filed[i].key);
      var k :| 0 <= k < |imported| && imported[k] == s;
      assert ImportedIds(db, branches, rows)[k] == s.id;
    }
  }

  /** An order outside the pack keeps exactly the items and payments it had. */
  lemma {:induction false} OtherOrdersKeepTheirRows(db: Db, branches: Branches, p: Pack, id: Id)
    requires Ready(db, branches, p.orders) && PaymentsWritten(Import(db, branches, p).1)
    requires id !in PackIds(p.orders)
    ensures ItemsIn(id, Import(db, branches, p).0.items) == ItemsIn(id, db.items)
    ensures PaidIn(id, Import(db, branches, p).0.payments) == PaidIn(id, db.payments)
  {
    var index, ids := Index(db, branches, p.orders), ImportedIds(db, branches, p.orders);
    ItemsAfter(db, branches, p);
    PaymentsAfter(db, branches, p, id);
    var items, payments := ItemsOf(index, p.items), PaymentsOf(branches, index, p.payments);
    ItemsAreMade(index, p.items);
    PaymentsAreMade(branches, index, p.payments);
    MadeForImported(ItemView, items, FiledItems(p), db, branches, p.orders);
    MadeForImported(PaymentView, payments, FiledPayments(p), db, branches, p.orders);
    ImportedIdsAreThePacks(db, branches, p.orders);
    ByItemId();
    ByPaymentId();
    OtherSum(ItemView, SameItem, db.items, ids, items, id);
    OtherSum(PaymentView, SamePayment, db.payments, ids, payments, id);
  }

  // ---------- Conservation ----------

  /** Paid exactly when closed, never paid beyond its total, and the total is subtotal plus tax
      less discount. */
  predicate DuesMet(s: Order, paid: int) {
    && (s.status == CLOSED ==> paid == s.total) && paid <= s.total
    && s.subtotal + s.tax - s.discount == s.total
  }

  /** Every stored order of the pack holds what it is due. */
  ghost predicate Conserved(db: Db, rows: seq<OrderRow>) {
    forall k, i :: 0 <= k < |db.orders| && 0 <= i < |rows| && db.orders[k].id == RowId(rows[i]) ==>
      DuesMet(db.orders[k], PaidIn(db.orders[k].id, db.payments))
  }

  /** Modifiers are validated but not stored: what the file has of them under a key. */
  function ModifiersUnder(p: Pack, o: OrderRow): int {
    Total(OrderKey(o), Map(ChargeEntry, p.modifiers))
  }

  /** The stored items of every stored order of the pack, with the file's modifiers, make up its
      subtotal. */
  ghost predicate Itemized(db: Db, p: Pack) {
    forall k, i :: 0 <= k < |db.orders| && 0 <= i < |p.orders| && db.orders[k].id == RowId(p.orders[i]) ==>
      ItemsIn(db.orders[k].id, db.items) + ModifiersUnder(p, p.orders[i]) == db.orders[k].subtotal
  }

  predicate OrderStored(db: Db, id: Id) {
    exists k :: 0 <= k < |db.orders| && db.orders[k].id == id
  }

  /** Something holds of every order of the pack as it is stored before the import, or else as it
      is filed. */
  ghost predicate HoldsAhead(db: Db, branches: Branches, rows: seq<OrderRow>, q: (Order, OrderRow) -> bool)
    requires BranchesKnown(branches, rows)
  {
    && (forall k, i :: 0 <= k < |db.orders| && 0 <= i < |rows| && db.orders[k].id == RowId(rows[i]) ==>
          q(db.orders[k], rows[i]))
    && (forall i :: 0 <= i < |rows| && !OrderStored(db, RowId(rows[i])) ==> q(OrderOf(branches, rows[i]), rows[i]))
  }

  ghost predicate HoldsAfter(orders: seq<Order>, rows: seq<OrderRow>, q: (Order, OrderRow) -> bool) {
    forall k, i :: 0 <= k < |orders| && 0 <= i < |rows| && orders[k].id == RowId(rows[i]) ==> q(orders[k], rows[i])
  }

  /** After the insert it holds of every stored order of the pack exactly when it held ahead. */
  lemma HoldsAfterIffAhead(db: Db, branches: Branches, rows: seq<OrderRow>, q: (Order, OrderRow) -> bool)
    requires Ready(db, branches, rows)
    ensures HoldsAfter(OrdersAfter(db, branches, rows), rows, q) <==> HoldsAhead(db, branches, rows, q)
  {
    var after := OrdersAfter(db, branches, rows);
    if HoldsAhead(db, branches, rows, q) {
      forall k, i | 0 <= k < |after| && 0 <= i < |rows| && after[k].id == RowId(rows[i]) ensures q(after[k], rows[i]) {
        StoredOrFiled(db, branches, rows, after[k], i);
      }
    }
    if HoldsAfter(after, rows, q) {
      InsertKeepsOldRows(SameOrder, db.orders, OrdersOf(branches, rows));
      assert forall k :: 0 <= k < |db.orders| ==> after[k] == db.orders[k];
      forall i | 0 <= i < |rows| && !OrderStored(db, RowId(rows[i])) ensures q(OrderOf(branches, rows[i]), rows[i]) {
        var s := PackOrderIsImported(db, branches, rows, i);
        ImportedExactly(db, branches, rows, s);
        StoredOrFiled(db, branches, rows, s, i);
        var k :| 0 <= k < |after| && after[k] == s;
      }
    }
  }

  /** A stored order with the id of a pack order was stored before, or it is the file's and no
      order with its id was. */
  lemma StoredOrFiled(db: Db, branches: Branches, rows: seq<OrderRow>, s: Order, i: nat)
    requires Ready(db, branches, rows) && i < |rows|
    requires s in OrdersAfter(db, branches, rows) && s.id == RowId(rows[i])
    ensures s in db.orders || (s == OrderOf(branches, rows[i]) && !OrderStored(db, RowId(rows[i])))
  {
    var j := OldOrAdded(db, branches, rows, s);
    if j != -1 {
      SameIdSameRow(rows, j, i);
      if k :| 0 <= k < |db.orders| && db.orders[k].id == s.id {
        assert SameOrder(db.orders[k], s);
      }
    }
  }

  /** What the file pays an order, less the payments that do not arrive. */
  function Arriving(held: seq<Payment>, p: Pack, o: OrderRow): int {
    SumUnder(OrderKey(o), FiledPayments(p)) - SumUnder(OrderKey(o), LostPayments(held, p))
  }

  function ItemsArriving(held: seq<Item>, p: Pack, o: OrderRow): int {
    SumUnder(OrderKey(o), FiledItems(p)) - SumUnder(OrderKey(o), LostItems(held, p))
  }

  function DuesCheck(held: seq<Payment>, p: Pack): (Order, OrderRow) -> bool {
    (s: Order, o: OrderRow) => DuesMet(s, Arriving(held, p, o))
  }

  function ItemsCheck(held: seq<Item>, p: Pack): (Order, OrderRow) -> bool {
    (s: Order, o: OrderRow) => ItemsArriving(held, p, o) + ModifiersUnder(p, o) == s.subtotal
  }

  /** The exact condition for conservation, for any store whose pack orders are at their address,
      edited or not, and whatever payments it holds: every order of the pack, as stored before or
      else as filed, is paid as due by the payments that arrive. It can be checked before. */
  lemma {:induction false} ConservedIff(db: Db, branches: Branches, p: Pack)
    requires Ready(db, branches, p.orders) && PaymentsWritten(Import(db, branches, p).1)
    ensures Conserved(Import(db, branches, p).0, p.orders) <==>
              HoldsAhead(db, branches, p.orders, DuesCheck(db.payments, p))
  {
    var after, q := Import(db, branches, p).0, DuesCheck(db.payments, p);
    ItemsAfter(db, branches, p);
    forall i | 0 <= i < |p.orders|
      ensures PaidIn(RowId(p.orders[i]), after.payments) == Arriving(db.payments, p, p.orders[i])
    {
      StoredPaymentsOfOrder(db, branches, p, i);
    }
    HoldsAfterIffAhead(db, branches, p.orders, q);
    assert Conserved(after, p.orders) <==> HoldsAfter(after.orders, p.orders, q);
  }

  /** The same for the items: the exact condition under which they make up every subtotal. */
  lemma {:induction false} ItemizedIff(db: Db, branches: Branches, p: Pack)
    requires Ready(db, branches, p.orders) && PaymentsWritten(Import(db, branches, p).1)
    ensures Itemized(Import(db, branches, p).0, p) <==>
              HoldsAhead(db, branches, p.orders, ItemsCheck(db.items, p))
  {
    var after, q := Import(db, branches, p).0, ItemsCheck(db.items, p);
    forall i | 0 <= i < |p.orders|
      ensures ItemsIn(RowId(p.orders[i]), after.items) == ItemsArriving(db.items, p, p.orders[i])
    {
      StoredItemsOfOrder(db, branches, p, i);
    }
    ItemsAfter(db, branches, p);
    HoldsAfterIffAhead(db, branches, p.orders, q);
    assert Itemized(after, p) <==> HoldsAfter(after.orders, p.orders, q);
  }

  // ---------- From a clean start ----------

  /** Stored orders that share a unique key with an order of the pack equal it. */
  predicate Unaltered(db: Db, branches: Branches, rows: seq<OrderRow>)
    requires BranchesKnown(branches, rows)
  {
    forall k, i :: 0 <= k < |db.orders| && 0 <= i < |rows| && SameOrder(db.orders[k], OrderOf(branches, rows[i])) ==>
      db.orders[k] == OrderOf(branches, rows[i])
  }

  /** The store the laws of runs start from: pack orders absent or unaltered. */
  predicate CleanStart(db: Db, branches: Branches, p: Pack) {
    && Injective(branches) && BranchesKnown(branches, p.orders) && OrderIdsDistinct(p.orders)
    && Unaltered(db, branches, p.orders)
  }

  lemma CleanStartIsReady(db: Db, branches: Branches, p: Pack, lower: string -> string)
    requires Accepts(p, lower) && CleanStart(db, branches, p)
    ensures Ready(db, branches, p.orders) && Distinct(Map(PaymentKey, p.payments))
  {
    UniqueKeys(p, lower);
    forall k, i | 0 <= k < |db.orders| && 0 <= i < |p.orders|
                  && SameOrder(db.orders[k], OrderOf(branches, p.orders[i]))
      ensures SameAddress(db.orders[k], OrderOf(branches, p.orders[i]))
    {
      assert db.orders[k] == OrderOf(branches, p.orders[i]);
    }
  }

  /** Losing the lost payments leaves a closed order paid exactly and no order overpaid. */
  predicate LossBearable(held: seq<Payment>, p: Pack, o: OrderRow) {
    && (o.status == CLOSED ==> SumUnder(OrderKey(o), LostPayments(held, p)) == 0)
    && Arriving(held, p, o) <= Cents(o.total)
  }

  predicate LossesBearable(held: seq<Payment>, p: Pack) {
    forall i :: 0 <= i < |p.orders| ==> LossBearable(held, p, p.orders[i])
  }

  /** The lost items of every order sum to nothing. */
  predicate NoItemsMissing(held: seq<Item>, p: Pack) {
    forall i :: 0 <= i < |p.orders| ==> SumUnder(OrderKey(p.orders[i]), LostItems(held, p)) == 0
  }

  /** What acceptance says of one order, in sums under its key. */
  lemma AcceptedOrder(p: Pack, lower: string -> string, i: nat)
    requires Accepts(p, lower) && i < |p.orders|
    ensures var o := p.orders[i];
            && SumUnder(OrderKey(o), FiledItems(p)) + ModifiersUnder(p, o) == Cents(o.subtotal)
            && Cents(o.subtotal) + Cents(o.tax) - Cents(o.discount) == Cents(o.total)
            && (o.status == CLOSED ==> SumUnder(OrderKey(o), FiledPayments(p)) == Cents(o.total))
            && SumUnder(OrderKey(o), FiledPayments(p)) <= Cents(o.total)
  {
    var o, figures := p.orders[i], Map(FiguresOf, p.orders);
    FiledItemsTotal(OrderKey(o), p.items);
    FiledPaymentsTotal(OrderKey(o), p.payments);
    CentsAreValues(o.subtotal);
    CentsAreValues(o.tax);
    CentsAreValues(o.discount);
    CentsAreValues(o.total);
    assert figures[i].key == OrderKey(o);
    assert ChargesAddUp(figures[i], Total(figures[i].key, Map(ChargeEntry, ItemCharges(p.items)))
                                    + Total(figures[i].key, Map(ChargeEntry, p.modifiers)));
    assert PaymentsAddUp(figures[i], Total(figures[i].key, Map(PaymentEntry, p.payments)));
  }

  /** As filed, an accepted order is paid as due, and itemized, exactly when its losses allow. */
  lemma ChecksOfAcceptedOrder(
    heldItems: seq<Item>, held: seq<Payment>, branches: Branches, p: Pack, lower: string -> string, i: nat)
    requires Accepts(p, lower) && BranchesKnown(branches, p.orders) && i < |p.orders|
    ensures var o := p.orders[i];
            && (DuesCheck(held, p)(OrderOf(branches, o), o) <==> LossBearable(held, p, o))
            && (ItemsCheck(heldItems, p)(OrderOf(branches, o), o) <==>
                  SumUnder(OrderKey(o), LostItems(heldItems, p)) == 0)
  {
    AcceptedOrder(p, lower, i);
    ChecksAsFiled(heldItems, held, branches, p, p.orders[i]);
  }

  lemma ChecksAsFiled(heldItems: seq<Item>, held: seq<Payment>, branches: Branches, p: Pack, o: OrderRow)
    requires o.branch in branches
    requires SumUnder(OrderKey(o), FiledItems(p)) + ModifiersUnder(p, o) == Cents(o.subtotal)
    requires Cents(o.subtotal) + Cents(o.tax) - Cents(o.discount) == Cents(o.total)
    requires o.status == CLOSED ==> SumUnder(OrderKey(o), FiledPayments(p)) == Cents(o.total)
    ensures DuesCheck(held, p)(OrderOf(branches, o), o) <==> LossBearable(held, p, o)
    ensures ItemsCheck(heldItems, p)(OrderOf(branches, o), o) <==> SumUnder(OrderKey(o), LostItems(heldItems, p)) == 0
  {
  }

  /** With pack orders absent or unaltered, what holds ahead is a matter of the file alone. */
  lemma AheadFromCleanStart(db: Db, branches: Branches, p: Pack, q: (Order, OrderRow) -> bool)
    requires CleanStart(db, branches, p)
    ensures HoldsAhead(db, branches, p.orders, q) <==>
              forall i :: 0 <= i < |p.orders| ==> q(OrderOf(branches, p.orders[i]), p.orders[i])
  {
    forall k, i | 0 <= k < |db.orders| && 0 <= i < |p.orders| && db.orders[k].id == RowId(p.orders[i])
      ensures db.orders[k] == OrderOf(branches, p.orders[i])
    {
      assert SameOrder(db.orders[k], OrderOf(branches, p.orders[i]));
    }
    if HoldsAhead(db, branches, p.orders, q) {
      forall i | 0 <= i < |p.orders| ensures q(OrderOf(branches, p.orders[i]), p.orders[i]) {
        if k :| 0 <= k < |db.orders| && db.orders[k].id == RowId(p.orders[i]) {
          assert q(db.orders[k], p.orders[i]);
        } else {
          assert !OrderStored(db, RowId(p.orders[i]));
        }
      }
    }
  }

  lemma DuesAheadIffBearable(db: Db, branches: Branches, p: Pack, lower: string -> string)
    requires Accepts(p, lower) && CleanStart(db, branches, p)
    ensures HoldsAhead(db, branches, p.orders, DuesCheck(db.payments, p)) <==> LossesBearable(db.payments, p)
  {
    AheadFromCleanStart(db, branches, p, DuesCheck(db.payments, p));
    forall i | 0 <= i < |p.orders|
      ensures DuesCheck(db.payments, p)(OrderOf(branches, p.orders[i]), p.orders[i])
         <==> LossBearable(db.payments, p, p.orders[i])
    {
      ChecksOfAcceptedOrder(db.items, db.payments, branches, p, lower, i);
    }
  }

  lemma ItemsAheadIffNoneMissing(db: Db, branches: Branches, p: Pack, lower: string -> string)
    requires Accepts(p, lower) && CleanStart(db, branches, p)
    ensures HoldsAhead(db, branches, p.orders, ItemsCheck(db.items, p)) <==> NoItemsMissing(db.items, p)
  {
    AheadFromCleanStart(db, branches, p, ItemsCheck(db.items, p));
    forall i | 0 <= i < |p.orders|
      ensures ItemsCheck(db.items, p)(OrderOf(branches, p.orders[i]), p.orders[i])
         <==> SumUnder(OrderKey(p.orders[i]), LostItems(db.items, p)) == 0
    {
      ChecksOfAcceptedOrder(db.items, db.payments, branches, p, lower, i);
    }
  }

  /** Orders that were absent or unaltered are as filed afterwards. */
  lemma StaysUnaltered(db: Db, branches: Branches, p: Pack, after: Db)
    requires CleanStart(db, branches, p) && after.orders == OrdersAfter(db, branches, p.orders)
    ensures Unaltered(after, branches, p.orders)
  {
    forall k, i | 0 <= k < |after.orders| && 0 <= i < |p.orders|
                  && SameOrder(after.orders[k], OrderOf(branches, p.orders[i]))
      ensures after.orders[k] == OrderOf(branches, p.orders[i])
    {
      var j := OldOrAdded(db, branches, p.orders, after.orders[k]);
      if j == -1 {
        var h :| 0 <= h < |db.orders| && db.orders[h] == after.orders[k];
      } else {
        PackOrdersAreDistinct(branches, p.orders, j, i);
      }
    }
  }

  /** End to end: an accepted pack, imported into any store whose pack orders are absent or
      unaltered, leaves every closed order paid to the cent and no order overpaid, whatever
      payments those orders had before, exactly when the payments it loses are not needed. Its
      items make up every subtotal exactly when the lost ones sum to nothing. The store stays fit
      for the next run in any case. */
  lemma {:induction false} PaymentsConserved(db: Db, branches: Branches, p: Pack, lower: string -> string)
    requires Accepts(p, lower) && CleanStart(db, branches, p) && PaymentsWritten(Import(db, branches, p).1)
    ensures Conserved(Import(db, branches, p).0, p.orders) <==> LossesBearable(db.payments, p)
    ensures Itemized(Import(db, branches, p).0, p) <==> NoItemsMissing(db.items, p)
    ensures Unaltered(Import(db, branches, p).0, branches, p.orders)
  {
    CleanStartIsReady(db, branches, p, lower);
    ItemsAfter(db, branches, p);
    StaysUnaltered(db, branches, p, Import(db, branches, p).0);
    ConservedIff(db, branches, p);
    DuesAheadIffBearable(db, branches, p, lower);
    ItemizedIff(db, branches, p);
    ItemsAheadIffNoneMissing(db, branches, p, lower);
  }
}
