/** The import of orders, items, payments and refunds into the store: orders by insert-ignore, items
    and payments by delete and recreate, then the mobile-money hardening. */
module SalesImport {
  import opened Prelude
  import opened Keys
  import opened Money
  import opened Tables
  import opened OwnedRows
  import opened Validator

  datatype Order = Order(
    id: Id, branchId: string, number: string, status: string,
    subtotal: int, tax: int, discount: int, total: int)

  datatype Item = Item(id: Id, orderId: Id, subtotal: int)

  datatype Payment = Payment(
    id: Id, orderId: Id, amount: int, payMethod: string, status: string, captureMode: string)

  datatype Db = Db(orders: seq<Order>, items: seq<Item>, payments: seq<Payment>)

  /** From branch code to branch row id. */
  type Branches = map<string, string>

  datatype ImportError = UnknownBranch | UnknownOrder | UnknownPayment

  const ORDER_LABEL := "order:"
  const ITEM_LABEL := "order-item:"
  const PAYMENT_LABEL := "payment:"

  /** The two unique keys of the orders table. */
  predicate SameOrder(a: Order, b: Order) {
    a.id == b.id || (a.branchId == b.branchId && a.number == b.number)
  }

  predicate SameItem(a: Item, b: Item) {
    a.id == b.id
  }

  predicate SamePayment(a: Payment, b: Payment) {
    a.id == b.id
  }

  function ItemView(i: Item): Owned {
    Owned(i.id, i.orderId, i.subtotal)
  }

  function PaymentView(p: Payment): Owned {
    Owned(p.id, p.orderId, p.amount)
  }

  /** The id of an order: its label joins branch code and number with one colon. */
  function RowId(o: OrderRow): Id {
    StableId(ORDER_LABEL + ColonKey(o.branch, o.number))
  }

  function ItemId(r: ItemRow): Id {
    StableId(ITEM_LABEL + Join([r.charge.branch, r.charge.number, r.lineNo], [COLON]))
  }

  function PaymentId(p: PaymentRow): Id {
    StableId(PAYMENT_LABEL + PaymentKey(p))
  }

  // ---------- Orders ----------

  function OrderOf(branches: Branches, o: OrderRow): Order
    requires o.branch in branches
  {
    Order(RowId(o), branches[o.branch], o.number, o.status,
          Cents(o.subtotal), Cents(o.tax), Cents(o.discount), Cents(o.total))
  }

  predicate BranchesKnown(branches: Branches, rows: seq<OrderRow>) {
    forall i :: 0 <= i < |rows| ==> rows[i].branch in branches
  }

  function OrdersOf(branches: Branches, rows: seq<OrderRow>): seq<Order>
    requires BranchesKnown(branches, rows)
  {
    seq(|rows|, i requires 0 <= i < |rows| => OrderOf(branches, rows[i]))
  }

  function IdsOf(orders: seq<Order>): seq<Id> {
    seq(|orders|, i requires 0 <= i < |orders| => orders[i].id)
  }

  /** The stored orders with one of these ids. */
  function Selected(orders: seq<Order>, ids: seq<Id>): seq<Order> {
    if orders == [] then []
    else
      var last := orders[|orders| - 1];
      Selected(orders[..|orders| - 1], ids) + if last.id in ids then [last] else []
  }

  /** Different codes are different branch rows. */
  predicate Injective(branches: Branches) {
    forall a, b :: a in branches && b in branches && branches[a] == branches[b] ==> a == b
  }

  ghost predicate HasCode(branches: Branches, branchId: string) {
    exists code :: code in branches && branches[code] == branchId
  }

  ghost function CodeOf(branches: Branches, branchId: string): (code: string)
    requires HasCode(branches, branchId)
    ensures code in branches && branches[code] == branchId
  {
    var code :| code in branches && branches[code] == branchId;
    code
  }

  /** Stored orders by branch code and order number; orders of unknown branches are left out. */
  ghost function OrderIndex(branches: Branches, orders: seq<Order>): map<string, Id> {
    if orders == [] then map[]
    else
      var last := orders[|orders| - 1];
      var index := OrderIndex(branches, orders[..|orders| - 1]);
      if HasCode(branches, last.branchId)
      then index[PairKey(CodeOf(branches, last.branchId), last.number) := last.id]
      else index
  }

  /** The orders after the insert, those among them that the file names, and their ids. */
  function OrdersAfter(db: Db, branches: Branches, rows: seq<OrderRow>): seq<Order>
    requires BranchesKnown(branches, rows)
  {
    InsertIgnore(SameOrder, db.orders, OrdersOf(branches, rows))
  }

  function Imported(db: Db, branches: Branches, rows: seq<OrderRow>): seq<Order>
    requires BranchesKnown(branches, rows)
  {
    Selected(OrdersAfter(db, branches, rows), IdsOf(OrdersOf(branches, rows)))
  }

  function ImportedIds(db: Db, branches: Branches, rows: seq<OrderRow>): seq<Id>
    requires BranchesKnown(branches, rows)
  {
    IdsOf(Imported(db, branches, rows))
  }

  ghost function Index(db: Db, branches: Branches, rows: seq<OrderRow>): map<string, Id>
    requires BranchesKnown(branches, rows)
  {
    OrderIndex(branches, Imported(db, branches, rows))
  }

  // ---------- Items ----------

  function ItemKey(r: ItemRow): string {
    PairKey(r.charge.branch, r.charge.number)
  }

  predicate ItemsResolve(index: map<string, Id>, rows: seq<ItemRow>) {
    forall i :: 0 <= i < |rows| ==> ItemKey(rows[i]) in index
  }

  function ItemOf(index: map<string, Id>, r: ItemRow): Item
    requires ItemKey(r) in index
  {
    Item(ItemId(r), index[ItemKey(r)], Cents(r.charge.amount))
  }

  function ItemsOf(index: map<string, Id>, rows: seq<ItemRow>): seq<Item>
    requires ItemsResolve(index, rows)
  {
    seq(|rows|, i requires 0 <= i < |rows| => ItemOf(index, rows[i]))
  }

  function KeptItems(db: Db, branches: Branches, rows: seq<OrderRow>): seq<Item>
    requires BranchesKnown(branches, rows)
  {
    Outside(ItemView, db.items, ImportedIds(db, branches, rows))
  }

  ghost function WrittenItems(db: Db, branches: Branches, p: Pack): seq<Item>
    requires BranchesKnown(branches, p.orders) && ItemsResolve(Index(db, branches, p.orders), p.items)
  {
    InsertIgnore(SameItem, KeptItems(db, branches, p.orders), ItemsOf(Index(db, branches, p.orders), p.items))
  }

  // ---------- Payments ----------

  function ChargeKey(p: PaymentRow): string {
    PairKey(p.charge.branch, p.charge.number)
  }

  function PaymentOf(index: map<string, Id>, p: PaymentRow): Payment
    requires ChargeKey(p) in index
  {
    Payment(PaymentId(p), index[ChargeKey(p)], Cents(p.charge.amount), p.payMethod, p.status, p.captureMode)
  }

  predicate PaymentResolves(branches: Branches, index: map<string, Id>, p: PaymentRow) {
    p.charge.branch in branches && ChargeKey(p) in index
  }

  predicate PaymentsResolve(branches: Branches, index: map<string, Id>, rows: seq<PaymentRow>) {
    forall i :: 0 <= i < |rows| ==> PaymentResolves(branches, index, rows[i])
  }

  function PaymentsOf(branches: Branches, index: map<string, Id>, rows: seq<PaymentRow>): seq<Payment>
    requires PaymentsResolve(branches, index, rows)
  {
    seq(|rows|, i requires 0 <= i < |rows| =>
      assert PaymentResolves(branches, index, rows[i]);
      PaymentOf(index, rows[i]))
  }

  function KeptPayments(db: Db, branches: Branches, rows: seq<OrderRow>): seq<Payment>
    requires BranchesKnown(branches, rows)
  {
    Outside(PaymentView, db.payments, ImportedIds(db, branches, rows))
  }

  /** The payments before hardening. */
  ghost function Written(db: Db, branches: Branches, p: Pack): seq<Payment>
    requires BranchesKnown(branches, p.orders)
    requires PaymentsResolve(branches, Index(db, branches, p.orders), p.payments)
  {
    InsertIgnore(SamePayment, KeptPayments(db, branches, p.orders),
                 PaymentsOf(branches, Index(db, branches, p.orders), p.payments))
  }

  predicate Unhardened(p: Payment) {
    p.payMethod == MOMO && (p.status != PENDING || p.captureMode != ONLINE_PROVIDER)
  }

  /** Mobile money is put back to pending and provider-gated. The amount is not touched. */
  function Harden(p: Payment): Payment {
    if Unhardened(p) then p.(status := PENDING, captureMode := ONLINE_PROVIDER) else p
  }

  // ---------- Refunds ----------

  /** What a refund names a payment by: transaction id, provider reference, or the natural key. */
  function RefOf(p: PaymentRow): string {
    if p.transactionId != "" then p.transactionId
    else if p.providerRef != "" then p.providerRef
    else PaymentKey(p)
  }

  function RefsById(rows: seq<PaymentRow>): map<Id, string> {
    if rows == [] then map[]
    else
      var last := rows[|rows| - 1];
      RefsById(rows[..|rows| - 1])[PaymentId(last) := RefOf(last)]
  }

  /** The references of the stored payments that the file has created or met. */
  function RefsFound(stored: seq<Payment>, refs: map<Id, string>): set<string> {
    if stored == [] then {}
    else
      var last := stored[|stored| - 1];
      RefsFound(stored[..|stored| - 1], refs) + if last.id in refs then {refs[last.id]} else {}
  }

  predicate RefundResolves(branches: Branches, index: map<string, Id>, refs: set<string>, r: RefundRow) {
    r.branch in branches && PairKey(r.branch, r.number) in index && r.paymentRef in refs
  }

  predicate RefundsResolve(branches: Branches, index: map<string, Id>, refs: set<string>, rows: seq<RefundRow>) {
    forall i :: 0 <= i < |rows| ==> RefundResolves(branches, index, refs, rows[i])
  }

  // ---------- The whole step ----------

  /** Nothing is rolled back. An item without its order stops the import when the old items are
      gone and the payments untouched; a payment without its order, when the old payments are gone
      and none is written; a refund without its payment, before the hardening. */
  ghost function Import(db: Db, branches: Branches, p: Pack): (Db, Option<ImportError>) {
    if !BranchesKnown(branches, p.orders) then (db, Some(UnknownBranch))
    else
      var stored, index := OrdersAfter(db, branches, p.orders), Index(db, branches, p.orders);
      if !ItemsResolve(index, p.items) then
        (Db(stored, KeptItems(db, branches, p.orders), db.payments), Some(UnknownOrder))
      else
        var items := WrittenItems(db, branches, p);
        if !PaymentsResolve(branches, index, p.payments) then
          (Db(stored, items, KeptPayments(db, branches, p.orders)), Some(UnknownOrder))
        else
          var payments := Written(db, branches, p);
          if !RefundsResolve(branches, index, RefsFound(payments, RefsById(p.payments)), p.refunds) then
            (Db(stored, items, payments), Some(UnknownPayment))
          else (Db(stored, items, Map(Harden, payments)), None)
  }

  /** The import got as far as writing the payments. */
  predicate PaymentsWritten(error: Option<ImportError>) {
    error.None? || error == Some(UnknownPayment)
  }

  // ---------- The steps ----------

  method BuildOrders(branches: Branches, rows: seq<OrderRow>) returns (creates: Option<seq<Order>>)
    ensures creates.Some? <==> BranchesKnown(branches, rows)
    ensures creates.Some? ==> creates.value == OrdersOf(branches, rows)
  {
    var built: seq<Order> := [];
    for i := 0 to |rows|
      invariant BranchesKnown(branches, rows[..i])
      invariant built == OrdersOf(branches, rows[..i])
    {
      assert rows[..i + 1] == rows[..i] + [rows[i]];
      if rows[i].branch !in branches {
        return None;
      }
      built := built + [OrderOf(branches, rows[i])];
    }
    assert rows[..|rows|] == rows;
    return Some(built);
  }

  method BuildIndex(branches: Branches, orders: seq<Order>) returns (index: map<string, Id>)
    requires Injective(branches)
    ensures index == OrderIndex(branches, orders)
  {
    index := map[];
    for i := 0 to |orders|
      invariant index == OrderIndex(branches, orders[..i])
    {
      assert orders[..i + 1][..i] == orders[..i];
      var order := orders[i];
      if code :| code in branches && branches[code] == order.branchId {
        assert HasCode(branches, order.branchId);
        index := index[PairKey(code, order.number) := order.id];
      }
    }
    assert orders[..|orders|] == orders;
  }

  method BuildItems(index: map<string, Id>, rows: seq<ItemRow>) returns (creates: Option<seq<Item>>)
    ensures creates.Some? <==> ItemsResolve(index, rows)
    ensures creates.Some? ==> creates.value == ItemsOf(index, rows)
  {
    var built: seq<Item> := [];
    for i := 0 to |rows|
      invariant ItemsResolve(index, rows[..i])
      invariant built == ItemsOf(index, rows[..i])
    {
      assert rows[..i + 1] == rows[..i] + [rows[i]];
      if ItemKey(rows[i]) !in index {
        return None;
      }
      built := built + [ItemOf(index, rows[i])];
    }
    assert rows[..|rows|] == rows;
    return Some(built);
  }

  method BuildPayments(branches: Branches, index: map<string, Id>, rows: seq<PaymentRow>)
    returns (creates: Option<seq<Payment>>, refs: map<Id, string>)
    ensures creates.Some? <==> PaymentsResolve(branches, index, rows)
    ensures creates.Some? ==> creates.value == PaymentsOf(branches, index, rows) && refs == RefsById(rows)
  {
    var built: seq<Payment> := [];
    refs := map[];
    for i := 0 to |rows|
      invariant PaymentsResolve(branches, index, rows[..i])
      invariant built == PaymentsOf(branches, index, rows[..i]) && refs == RefsById(rows[..i])
    {
      assert rows[..i + 1] == rows[..i] + [rows[i]];
      if !PaymentResolves(branches, index, rows[i]) {
        return None, refs;
      }
      built := built + [PaymentOf(index, rows[i])];
      refs := refs[PaymentId(rows[i]) := RefOf(rows[i])];
    }
    assert rows[..|rows|] == rows;
    return Some(built), refs;
  }

  method FindRefs(stored: seq<Payment>, refs: map<Id, string>) returns (found: set<string>)
    ensures found == RefsFound(stored, refs)
  {
    found := {};
    for i := 0 to |stored|
      invariant found == RefsFound(stored[..i], refs)
    {
      assert stored[..i + 1][..i] == stored[..i];
      if stored[i].id in refs {
        found := found + {refs[stored[i].id]};
      }
    }
    assert stored[..|stored|] == stored;
  }

  method CheckRefunds(branches: Branches, index: map<string, Id>, refs: set<string>, rows: seq<RefundRow>)
    returns (ok: bool)
    ensures ok <==> RefundsResolve(branches, index, refs, rows)
  {
    for i := 0 to |rows|
      invariant RefundsResolve(branches, index, refs, rows[..i])
    {
      if !RefundResolves(branches, index, refs, rows[i]) {
        return false;
      }
      assert rows[..i + 1] == rows[..i] + [rows[i]];
    }
    assert rows[..|rows|] == rows;
    return true;
  }

  method DeleteOutside<T>(view: T -> Owned, rows: seq<T>, orderIds: seq<Id>) returns (kept: seq<T>)
    ensures kept == Outside(view, rows, orderIds)
  {
    kept := [];
    for i := 0 to |rows|
      invariant kept == Outside(view, rows[..i], orderIds)
    {
      assert rows[..i + 1][..i] == rows[..i];
      if view(rows[i]).orderId !in orderIds {
        kept := kept + [rows[i]];
      }
    }
    assert rows[..|rows|] == rows;
  }

  const CHUNK := 250

  /** The orders, items and payments tables, updated in place by the import. */
  class SalesStore {
    var orders: seq<Order>
    var items: seq<Item>
    var payments: seq<Payment>

    ghost function Contents(): Db
      reads this
    {
      Db(orders, items, payments)
    }

    constructor (orders: seq<Order>, items: seq<Item>, payments: seq<Payment>)
      ensures Contents() == Db(orders, items, payments)
    {
      this.orders, this.items, this.payments := orders, items, payments;
    }

    /** Inserts the orders and indexes those the file names. */
    method WriteOrders(branches: Branches, rows: seq<OrderRow>)
      returns (known: bool, ids: seq<Id>, index: map<string, Id>, counters: Counters)
      requires Injective(branches)
      modifies this`orders
      ensures known <==> BranchesKnown(branches, rows)
      ensures !known ==> orders == old(orders)
      ensures known ==>
                && orders == OrdersAfter(old(Contents()), branches, rows)
                && ids == ImportedIds(old(Contents()), branches, rows)
                && index == Index(old(Contents()), branches, rows)
                && counters.created + counters.skipped == |rows| && counters.created == |orders| - |old(orders)|
    {
      ids, index, counters := [], map[], Counters(0, 0, 0);
      var creates := BuildOrders(branches, rows);
      known := creates.Some?;
      if known {
        orders, counters := InsertInChunks(SameOrder, orders, creates.value, CHUNK);
        var imported := Selected(orders, IdsOf(creates.value));
        ids := IdsOf(imported);
        index := BuildIndex(branches, imported);
      }
    }

    /** Deletes the orders' items and creates the file's; stops in between if one has no order. */
    method WriteItems(ids: seq<Id>, index: map<string, Id>, rows: seq<ItemRow>)
      returns (known: bool, counters: Counters)
      modifies this`items
      ensures known <==> ItemsResolve(index, rows)
      ensures !known ==> items == Outside(ItemView, old(items), ids)
      ensures known ==>
                && items == InsertIgnore(SameItem, Outside(ItemView, old(items), ids), ItemsOf(index, rows))
                && counters.created + counters.skipped == |rows|
                && counters.created == |items| - |Outside(ItemView, old(items), ids)|
    {
      counters := Counters(0, 0, 0);
      items := DeleteOutside(ItemView, items, ids);
      var creates := BuildItems(index, rows);
      known := creates.Some?;
      if known {
        items, counters := InsertInChunks(SameItem, items, creates.value, CHUNK);
      }
    }

    /** The same for payments, with the references that refunds may use. */
    method WritePayments(branches: Branches, ids: seq<Id>, index: map<string, Id>, rows: seq<PaymentRow>)
      returns (known: bool, found: set<string>, counters: Counters)
      modifies this`payments
      ensures known <==> PaymentsResolve(branches, index, rows)
      ensures !known ==> payments == Outside(PaymentView, old(payments), ids)
      ensures known ==>
                && payments == InsertIgnore(SamePayment, Outside(PaymentView, old(payments), ids),
                                            PaymentsOf(branches, index, rows))
                && found == RefsFound(payments, RefsById(rows))
                && counters.created + counters.skipped == |rows|
                && counters.created == |payments| - |Outside(PaymentView, old(payments), ids)|
    {
      found, counters := {}, Counters(0, 0, 0);
      payments := DeleteOutside(PaymentView, payments, ids);
      var creates, refs := BuildPayments(branches, index, rows);
      known := creates.Some?;
      if known {
        payments, counters := InsertInChunks(SamePayment, payments, creates.value, CHUNK);
        found := FindRefs(payments, refs);
      }
    }

    method ImportSales(branches: Branches, p: Pack)
      returns (error: Option<ImportError>,
               orderCounters: Counters, itemCounters: Counters, paymentCounters: Counters, hardened: nat)
      requires Injective(branches)
      modifies this
      ensures (Contents(), error) == Import(old(Contents()), branches, p)
      ensures PaymentsWritten(error) ==>
                && orderCounters.created + orderCounters.skipped == |p.orders|
                && orderCounters.created == |orders| - |old(orders)|
      ensures PaymentsWritten(error) ==>
                && itemCounters.created + itemCounters.skipped == |p.items|
                && itemCounters.created == |items| - |KeptItems(old(Contents()), branches, p.orders)|
      ensures PaymentsWritten(error) ==>
                && paymentCounters.created + paymentCounters.skipped == |p.payments|
                && paymentCounters.created == |payments| - |KeptPayments(old(Contents()), branches, p.orders)|
      ensures error.None? ==> hardened == CountWhere(Unhardened, Written(old(Contents()), branches, p))
    {
      itemCounters, paymentCounters, hardened := Counters(0, 0, 0), Counters(0, 0, 0), 0;
      var known, ids, index, found;
      known, ids, index, orderCounters := WriteOrders(branches, p.orders);
      if !known {
        error := Some(UnknownBranch);
        return;
      }
      known, itemCounters := WriteItems(ids, index, p.items);
      if !known {
        error := Some(UnknownOrder);
        return;
      }
      known, found, paymentCounters := WritePayments(branches, ids, index, p.payments);
      if !known {
        error := Some(UnknownOrder);
        return;
      }
      known := CheckRefunds(branches, index, found, p.refunds);
      if !known {
        error := Some(UnknownPayment);
        return;
      }
      hardened := CountWhere(Unhardened, payments);
      payments := Map(Harden, payments);
      error := None;
    }
  }
}
