/** The stores after a sales import that loses nothing, row by row: what each row of the file has
    become, with its id written out, and what the stored rows of an order come to. */
module SalesOutcome {
  import opened Prelude
  import opened Keys
  import opened Money
  import opened Tables
  import opened OwnedRows
  import opened Validator
  import opened ValidatorLaws
  import opened PackMeaning
  import opened SalesImport
  import opened SalesSuccess
  import opened SalesLaws
  import opened SalesRuns

  // ---------- Rows as they are to be stored ----------

  function StoredOrderId(branch: string, number: string): Id {
    StableId("order:" + branch + ":" + number)
  }

  function StoredItemId(r: ItemRow): Id {
    StableId("order-item:" + r.charge.branch + ":" + r.charge.number + ":" + r.lineNo)
  }

  function StoredPaymentId(q: PaymentRow): Id {
    var reference := if q.transactionId != "" then q.transactionId else q.providerRef;
    StableId("payment:" + q.charge.branch + "::" + q.charge.number + "::" + reference
             + "::" + q.payMethod + "::" + q.charge.amount)
  }

  /** The order row carries every field of the file's row, amounts in cents. */
  predicate IsFiledOrder(s: Order, branches: Branches, o: OrderRow) {
    && s.id == StoredOrderId(o.branch, o.number)
    && o.branch in branches && s.branchId == branches[o.branch] && s.number == o.number && s.status == o.status
    && s.subtotal == Cents(o.subtotal) && s.tax == Cents(o.tax)
    && s.discount == Cents(o.discount) && s.total == Cents(o.total)
  }

  function FiledItemRow(r: ItemRow): Item {
    Item(StoredItemId(r), StoredOrderId(r.charge.branch, r.charge.number), Cents(r.charge.amount))
  }

  function FiledPaymentRow(q: PaymentRow): Payment {
    Payment(StoredPaymentId(q), StoredOrderId(q.charge.branch, q.charge.number), Cents(q.charge.amount),
            q.payMethod, q.status, q.captureMode)
  }

  lemma OrderIdSpelled(o: OrderRow)
    ensures RowId(o) == StoredOrderId(o.branch, o.number)
  {
    assert ORDER_LABEL + ColonKey(o.branch, o.number) == "order:" + o.branch + ":" + o.number;
  }

  lemma ItemIdSpelled(r: ItemRow)
    ensures ItemId(r) == StoredItemId(r)
  {
    var b, n, l := r.charge.branch, r.charge.number, r.lineNo;
    JoinThree(b, n, l, [COLON]);
    assert ITEM_LABEL + (b + [COLON] + n + [COLON] + l) == "order-item:" + b + ":" + n + ":" + l;
  }

  lemma PaymentIdSpelled(q: PaymentRow)
    ensures PaymentId(q) == StoredPaymentId(q)
  {
    var b, n, m, a := q.charge.branch, q.charge.number, q.payMethod, q.charge.amount;
    var ref := if q.transactionId != "" then q.transactionId else q.providerRef;
    JoinFive(b, n, ref, m, a, SEPARATOR);
    var text := b + SEPARATOR + n + SEPARATOR + ref + SEPARATOR + m + SEPARATOR + a;
    assert PaymentKey(q) == text;
    assert PAYMENT_LABEL + text == "payment:" + b + "::" + n + "::" + ref + "::" + m + "::" + a;
  }

  /** Items of different orders or lines get different ids, for colon-free fields. */
  lemma {:induction false} ItemIdIdentifies(a: ItemRow, b: ItemRow)
    requires FreeOf(COLON, [a.charge.branch, a.charge.number, a.lineNo])
    requires FreeOf(COLON, [b.charge.branch, b.charge.number, b.lineNo])
    ensures ItemId(a) == ItemId(b) <==>
              a.charge.branch == b.charge.branch && a.charge.number == b.charge.number && a.lineNo == b.lineNo
  {
    var p, q := [a.charge.branch, a.charge.number, a.lineNo], [b.charge.branch, b.charge.number, b.lineNo];
    if ItemId(a) == ItemId(b) {
      var s, t := Join(p, [COLON]), Join(q, [COLON]);
      assert s == (ITEM_LABEL + s)[|ITEM_LABEL|..] && t == (ITEM_LABEL + t)[|ITEM_LABEL|..];
      JoinInjective(p, q, [COLON]);
      assert p[0] == q[0] && p[1] == q[1] && p[2] == q[2];
    }
  }

  // ---------- When no id is taken ----------

  /** The branch code, order number and line of every item are colon-free, and no two items agree
      in all three. */
  predicate LinesDistinct(items: seq<ItemRow>) {
    && (forall j :: 0 <= j < |items| ==>
          FreeOf(COLON, [items[j].charge.branch, items[j].charge.number, items[j].lineNo]))
    && Distinct(Map((r: ItemRow) => (r.charge.branch, r.charge.number, r.lineNo), items))
  }

  predicate IsPackOrderId(id: Id, rows: seq<OrderRow>) {
    exists i :: 0 <= i < |rows| && id == StoredOrderId(rows[i].branch, rows[i].number)
  }

  /** Stored rows with an id of the file's belong to orders of the pack. */
  predicate ItemIdsFree(held: seq<Item>, p: Pack) {
    forall k, j :: 0 <= k < |held| && 0 <= j < |p.items| && held[k].id == StoredItemId(p.items[j]) ==>
      IsPackOrderId(held[k].orderId, p.orders)
  }

  predicate PaymentIdsFree(held: seq<Payment>, p: Pack) {
    forall k, j :: 0 <= k < |held| && 0 <= j < |p.payments| && held[k].id == StoredPaymentId(p.payments[j]) ==>
      IsPackOrderId(held[k].orderId, p.orders)
  }

  lemma PackIdsSpelled(rows: seq<OrderRow>, id: Id)
    ensures id in PackIds(rows) <==> IsPackOrderId(id, rows)
  {
    if i :| 0 <= i < |rows| && id == StoredOrderId(rows[i].branch, rows[i].number) {
      OrderIdSpelled(rows[i]);
      assert PackIds(rows)[i] == id;
    }
    if i :| 0 <= i < |rows| && PackIds(rows)[i] == id {
      OrderIdSpelled(rows[i]);
    }
  }

  lemma ItemIsFiledOnce(p: Pack, j: nat)
    requires LinesDistinct(p.items) && j < |p.items|
    ensures !FiledBefore(FiledItems(p)[..j], ItemId(p.items[j]))
  {
    var lines := Map((r: ItemRow) => (r.charge.branch, r.charge.number, r.lineNo), p.items);
    if k :| 0 <= k < j && FiledItems(p)[..j][k].id == ItemId(p.items[j]) {
      assert lines[k] != lines[j];
      ItemIdIdentifies(p.items[k], p.items[j]);
    }
  }

  lemma NoItemElsewhere(held: seq<Item>, p: Pack, j: nat)
    requires ItemIdsFree(held, p) && j < |p.items|
    ensures !HeldElsewhere(ItemView, held, PackIds(p.orders), ItemId(p.items[j]))
  {
    ItemIdSpelled(p.items[j]);
    if k :| 0 <= k < |held| && ItemView(held[k]).id == ItemId(p.items[j])
            && ItemView(held[k]).orderId !in PackIds(p.orders) {
      PackIdsSpelled(p.orders, held[k].orderId);
    }
  }

  lemma NoItemIsLost(held: seq<Item>, p: Pack)
    requires LinesDistinct(p.items) && ItemIdsFree(held, p)
    ensures LostItems(held, p) == []
    ensures NoItemsMissing(held, p)
  {
    var filed := FiledItems(p);
    forall j | 0 <= j < |filed| ensures !WillMiss(ItemView, held, PackIds(p.orders), filed[..j], filed[j]) {
      ItemIsFiledOnce(p, j);
      NoItemElsewhere(held, p, j);
    }
    NothingLost(ItemView, held, PackIds(p.orders), filed);
  }

  lemma FreePaymentIds(held: seq<Payment>, p: Pack)
    requires PaymentIdsFree(held, p)
    ensures NoSquatters(held, p)
  {
    forall j | 0 <= j < |p.payments|
      ensures !HeldElsewhere(PaymentView, held, PackIds(p.orders), PaymentId(p.payments[j]))
    {
      PaymentIdSpelled(p.payments[j]);
      if k :| 0 <= k < |held| && PaymentView(held[k]).id == PaymentId(p.payments[j])
              && PaymentView(held[k]).orderId !in PackIds(p.orders) {
        PackIdsSpelled(p.orders, held[k].orderId);
      }
    }
  }

  // ---------- What the stored rows of an order come to ----------

  lemma {:induction false} SumForIsFilter<T>(
    view: T -> Owned, orderId: Id, keep: T -> bool, amount: T -> int, rows: seq<T>)
    requires forall i :: 0 <= i < |rows| ==>
               && (keep(rows[i]) <==> view(rows[i]).orderId == orderId) && amount(rows[i]) == view(rows[i]).amount
    ensures SumFor(view, orderId, rows) == SumWhere(keep, amount, rows)
  {
    if rows != [] {
      SumForIsFilter(view, orderId, keep, amount, rows[..|rows| - 1]);
    }
  }

  function StoredItemsTotal(s: Order, items: seq<Item>): int {
    SumWhere((x: Item) => x.orderId == s.id, (x: Item) => x.subtotal, items)
  }

  function StoredPaymentsTotal(s: Order, payments: seq<Payment>): int {
    SumWhere((x: Payment) => x.orderId == s.id, (x: Payment) => x.amount, payments)
  }

  lemma StoredTotals(s: Order, items: seq<Item>, payments: seq<Payment>)
    ensures StoredItemsTotal(s, items) == ItemsIn(s.id, items)
    ensures StoredPaymentsTotal(s, payments) == PaidIn(s.id, payments)
  {
    SumForIsFilter(ItemView, s.id, (x: Item) => x.orderId == s.id, (x: Item) => x.subtotal, items);
    SumForIsFilter(PaymentView, s.id, (x: Payment) => x.orderId == s.id, (x: Payment) => x.amount, payments);
  }

  lemma ModifiersAreFiltered(p: Pack, o: OrderRow)
    requires BranchCodesClean(p) && COLON !in o.branch
    ensures ModifiersUnder(p, o) == ModifiersTotal(o, p.modifiers)
  {
    CleanBranchesDoNotMix(o.branch, o.number, p.modifiers);
    KeyedSumIsOrderSum(o.branch, o.number, p.modifiers);
    ChargedToIsFilter(o, p.modifiers);
  }

  /** Every item, payment and refund is for an order of the file. */
  predicate OrderListed(branch: string, number: string, rows: seq<OrderRow>) {
    exists i :: 0 <= i < |rows| && rows[i].branch == branch && rows[i].number == number
  }

  predicate ChargesListed(p: Pack) {
    && (forall j :: 0 <= j < |p.items| ==> OrderListed(p.items[j].charge.branch, p.items[j].charge.number, p.orders))
    && (forall j :: 0 <= j < |p.payments| ==>
          OrderListed(p.payments[j].charge.branch, p.payments[j].charge.number, p.orders))
  }

  lemma ListedIffKeyInPack(branch: string, number: string, rows: seq<OrderRow>)
    requires COLON !in branch && forall i :: 0 <= i < |rows| ==> COLON !in rows[i].branch
    ensures OrderListed(branch, number, rows) <==> KeyInPack(rows, PairKey(branch, number))
  {
    if i :| 0 <= i < |rows| && OrderKey(rows[i]) == PairKey(branch, number) {
      PairKeysAgree(rows[i].branch, rows[i].number, branch, number);
    }
    if i :| 0 <= i < |rows| && rows[i].branch == branch && rows[i].number == number {
      assert OrderKey(rows[i]) == PairKey(branch, number);
    }
  }

  lemma ListedChargesHaveOrders(branches: Branches, p: Pack)
    requires BranchCodesClean(p) && BranchesKnown(branches, p.orders)
    ensures ChargesListed(p) <==> ChargesHaveOrders(branches, p)
  {
    forall j | 0 <= j < |p.items|
      ensures ItemKey(p.items[j]) in PackKeys(p.orders) <==>
                OrderListed(p.items[j].charge.branch, p.items[j].charge.number, p.orders)
    {
      ListedIffKeyInPack(p.items[j].charge.branch, p.items[j].charge.number, p.orders);
    }
    forall j | 0 <= j < |p.payments|
      ensures ChargeKey(p.payments[j]) in PackKeys(p.orders) && p.payments[j].charge.branch in branches <==>
                OrderListed(p.payments[j].charge.branch, p.payments[j].charge.number, p.orders)
    {
      ListedIffKeyInPack(p.payments[j].charge.branch, p.payments[j].charge.number, p.orders);
    }
  }

  predicate RefundsListed(p: Pack) {
    forall j :: 0 <= j < |p.refunds| ==>
      OrderListed(p.refunds[j].branch, p.refunds[j].number, p.orders) && RefKnown(p.payments, p.refunds[j].paymentRef)
  }

  lemma ListedRefundsFind(branches: Branches, p: Pack)
    requires BranchCodesClean(p) && BranchesKnown(branches, p.orders)
    requires forall j :: 0 <= j < |p.refunds| ==> COLON !in p.refunds[j].branch
    ensures RefundsListed(p) <==> RefundsFind(branches, PackKeys(p.orders), p)
  {
    forall j | 0 <= j < |p.refunds|
      ensures RefundFinds(branches, PackKeys(p.orders), p.payments, p.refunds[j]) <==>
                && OrderListed(p.refunds[j].branch, p.refunds[j].number, p.orders)
                && RefKnown(p.payments, p.refunds[j].paymentRef)
    {
      ListedIffKeyInPack(p.refunds[j].branch, p.refunds[j].number, p.orders);
    }
  }

  /** In the fields of the rows: the import goes through exactly when the order of every item,
      payment and refund is listed in the file, and a payment goes by each refund's reference. */
  lemma {:induction false} GoesThroughIffListed(db: Db, branches: Branches, p: Pack)
    requires Ready(db, branches, p.orders) && Distinct(Map(PaymentKey, p.payments)) && BranchCodesClean(p)
    requires forall j :: 0 <= j < |p.refunds| ==> COLON !in p.refunds[j].branch
    ensures Import(db, branches, p).1.None? <==> ChargesListed(p) && RefundsListed(p)
    ensures PaymentsWritten(Import(db, branches, p).1) <==> ChargesListed(p)
  {
    ImportSucceedsIff(db, branches, p);
    ListedChargesHaveOrders(branches, p);
    ListedRefundsFind(branches, p);
  }

  // ---------- The orders, as filed ----------

  lemma OrderOfIsFiled(branches: Branches, o: OrderRow)
    requires o.branch in branches
    ensures IsFiledOrder(OrderOf(branches, o), branches, o)
    ensures forall s :: IsFiledOrder(s, branches, o) ==> s == OrderOf(branches, o)
  {
    OrderIdSpelled(o);
  }

  /** Every order of the file is stored with all its fields, after what was stored before; and
      whatever was not stored before is an order of the file. */
  predicate OrdersStored(before: seq<Order>, after: seq<Order>, branches: Branches, rows: seq<OrderRow>) {
    && before <= after
    && (forall i :: 0 <= i < |rows| ==> exists k :: 0 <= k < |after| && IsFiledOrder(after[k], branches, rows[i]))
    && (forall k :: |before| <= k < |after| ==>
          exists i :: 0 <= i < |rows| && IsFiledOrder(after[k], branches, rows[i]))
  }

  lemma PackOrderIsFiled(db: Db, branches: Branches, p: Pack, lower: string -> string, i: nat) returns (k: nat)
    requires Accepts(p, lower) && CleanStart(db, branches, p) && i < |p.orders|
    ensures k < |OrdersAfter(db, branches, p.orders)|
    ensures IsFiledOrder(OrdersAfter(db, branches, p.orders)[k], branches, p.orders[i])
  {
    var after := OrdersAfter(db, branches, p.orders);
    CleanStartIsReady(db, branches, p, lower);
    var s := PackOrderIsImported(db, branches, p.orders, i);
    ImportedExactly(db, branches, p.orders, s);
    k :| 0 <= k < |after| && after[k] == s;
    StoredOrFiled(db, branches, p.orders, s, i);
    if h :| 0 <= h < |db.orders| && db.orders[h] == s {
      assert SameOrder(db.orders[h], OrderOf(branches, p.orders[i]));
    }
    OrderOfIsFiled(branches, p.orders[i]);
  }

  lemma {:induction false} AddedAreNew<T>(conflict: (T, T) -> bool, rows: seq<T>, batch: seq<T>, k: nat)
    requires rows <= InsertIgnore(conflict, rows, batch) && |rows| <= k < |InsertIgnore(conflict, rows, batch)|
    ensures InsertIgnore(conflict, rows, batch)[k] in batch
  {
    if batch != [] {
      var n := |batch| - 1;
      InsertKeepsOldRows(conflict, rows, batch[..n]);
      if k < |InsertIgnore(conflict, rows, batch[..n])| {
        AddedAreNew(conflict, rows, batch[..n], k);
        assert forall x :: x in batch[..n] ==> x in batch;
      }
    }
  }

  /** The orders table after any import from a clean start, field by field. */
  lemma {:induction false} OrdersStoredAsFiled(db: Db, branches: Branches, p: Pack, lower: string -> string)
    requires Accepts(p, lower) && CleanStart(db, branches, p)
    ensures OrdersStored(db.orders, Import(db, branches, p).0.orders, branches, p.orders)
  {
    var after, creates := OrdersAfter(db, branches, p.orders), OrdersOf(branches, p.orders);
    OrdersOfAnyOutcome(db, branches, p);
    InsertKeepsOldRows(SameOrder, db.orders, creates);
    forall i | 0 <= i < |p.orders|
      ensures exists k :: 0 <= k < |after| && IsFiledOrder(after[k], branches, p.orders[i])
    {
      var k := PackOrderIsFiled(db, branches, p, lower, i);
    }
    forall k | |db.orders| <= k < |after|
      ensures exists i :: 0 <= i < |p.orders| && IsFiledOrder(after[k], branches, p.orders[i])
    {
      AddedAreNew(SameOrder, db.orders, creates, k);
      var i :| 0 <= i < |p.orders| && creates[i] == after[k];
      OrderOfIsFiled(branches, p.orders[i]);
    }
  }

  // ---------- The items and payments, as filed ----------

  /** With every id free and used once, the insert appends the whole batch. */
  lemma {:induction false} InsertAppends<T(!new)>(
    view: T -> Owned, conflict: (T, T) -> bool, kept: seq<T>, creates: seq<T>)
    requires ConflictsById(view, conflict)
    requires forall i :: 0 <= i < |creates| ==>
               && !Holds(view, kept, view(creates[i]).id) && !Holds(view, creates[..i], view(creates[i]).id)
    ensures InsertIgnore(conflict, kept, creates) == kept + creates
  {
    if creates != [] {
      var n := |creates| - 1;
      forall i | 0 <= i < n
        ensures !Holds(view, kept, view(creates[..n][i]).id)
        ensures !Holds(view, creates[..n][..i], view(creates[..n][i]).id)
      {
        assert creates[..n][..i] == creates[..i] && creates[..n][i] == creates[i];
      }
      InsertAppends(view, conflict, kept, creates[..n]);
      HeldAfterInsert(view, conflict, kept, creates[..n], view(creates[n]).id);
      ClashesIffHeld(view, conflict, kept + creates[..n], creates[n]);
      assert kept + creates == (kept + creates[..n]) + [creates[n]];
    }
  }

  /** The same in terms of the file the batch is made from. */
  lemma InsertAppendsFiled<T(!new)>(
    view: T -> Owned, conflict: (T, T) -> bool, held: seq<T>, orderIds: seq<Id>,
    creates: seq<T>, filed: seq<Filed>, index: map<string, Id>)
    requires ConflictsById(view, conflict) && AllMadeFrom(view, creates, filed, index)
    requires forall j :: 0 <= j < |filed| ==> !WillMiss(view, held, orderIds, filed[..j], filed[j])
    ensures InsertIgnore(conflict, Outside(view, held, orderIds), creates) == Outside(view, held, orderIds) + creates
  {
    forall i | 0 <= i < |creates|
      ensures !Holds(view, Outside(view, held, orderIds), view(creates[i]).id)
      ensures !Holds(view, creates[..i], view(creates[i]).id)
    {
      assert MadeFrom(view(creates[i]), filed[i], index);
      MadeInit(view, creates, filed, index, i);
      KeptHoldIffElsewhere(view, held, orderIds, filed[i].id);
      MadeHoldIffFiled(view, creates[..i], filed[..i], index, filed[i].id);
      assert !WillMiss(view, held, orderIds, filed[..i], filed[i]);
    }
    InsertAppends(view, conflict, Outside(view, held, orderIds), creates);
  }

  lemma {:induction false} SameOrdersSameOutside<T>(view: T -> Owned, rows: seq<T>, a: seq<Id>, b: seq<Id>)
    requires forall id :: id in a <==> id in b
    ensures Outside(view, rows, a) == Outside(view, rows, b)
  {
    if rows != [] {
      SameOrdersSameOutside(view, rows[..|rows| - 1], a, b);
    }
  }

  /** The index leads a row of the file to the id of its order. */
  lemma IndexSpelled(db: Db, branches: Branches, p: Pack, branch: string, number: string)
    requires Ready(db, branches, p.orders) && BranchCodesClean(p) && COLON !in branch
    requires PairKey(branch, number) in Index(db, branches, p.orders)
    ensures Index(db, branches, p.orders)[PairKey(branch, number)] == StoredOrderId(branch, number)
  {
    var key := PairKey(branch, number);
    IndexFindsPackOrders(db, branches, p.orders, key);
    var i :| 0 <= i < |p.orders| && OrderKey(p.orders[i]) == key;
    PairKeysAgree(p.orders[i].branch, p.orders[i].number, branch, number);
    OrderIdSpelled(p.orders[i]);
  }

  lemma ItemsSpelled(db: Db, branches: Branches, p: Pack)
    requires Ready(db, branches, p.orders) && BranchCodesClean(p)
    requires ItemsResolve(Index(db, branches, p.orders), p.items)
    ensures ItemsOf(Index(db, branches, p.orders), p.items) == Map(FiledItemRow, p.items)
  {
    var index := Index(db, branches, p.orders);
    forall j | 0 <= j < |p.items| ensures ItemsOf(index, p.items)[j] == FiledItemRow(p.items[j]) {
      assert ItemKey(p.items[j]) in index;
      IndexSpelled(db, branches, p, p.items[j].charge.branch, p.items[j].charge.number);
      ItemIdSpelled(p.items[j]);
    }
  }

  lemma PaymentsSpelled(db: Db, branches: Branches, p: Pack)
    requires Ready(db, branches, p.orders) && BranchCodesClean(p)
    requires PaymentsResolve(branches, Index(db, branches, p.orders), p.payments)
    ensures PaymentsOf(branches, Index(db, branches, p.orders), p.payments) == Map(FiledPaymentRow, p.payments)
  {
    var index := Index(db, branches, p.orders);
    forall j | 0 <= j < |p.payments|
      ensures PaymentsOf(branches, index, p.payments)[j] == FiledPaymentRow(p.payments[j])
    {
      assert PaymentResolves(branches, index, p.payments[j]);
      IndexSpelled(db, branches, p, p.payments[j].charge.branch, p.payments[j].charge.number);
      PaymentIdSpelled(p.payments[j]);
    }
  }

  lemma ItemsAppended(db: Db, branches: Branches, p: Pack)
    requires Ready(db, branches, p.orders) && BranchCodesClean(p) && LinesDistinct(p.items) && ItemIdsFree(db.items, p)
    requires ItemsResolve(Index(db, branches, p.orders), p.items)
    ensures WrittenItems(db, branches, p)
         == Outside(ItemView, db.items, PackIds(p.orders)) + Map(FiledItemRow, p.items)
  {
    var index, filed := Index(db, branches, p.orders), FiledItems(p);
    ImportedIdsAreThePacks(db, branches, p.orders);
    SameOrdersSameOutside(ItemView, db.items, ImportedIds(db, branches, p.orders), PackIds(p.orders));
    ByItemId();
    ItemsAreMade(index, p.items);
    forall j | 0 <= j < |filed| ensures !WillMiss(ItemView, db.items, PackIds(p.orders), filed[..j], filed[j]) {
      ItemIsFiledOnce(p, j);
      NoItemElsewhere(db.items, p, j);
    }
    InsertAppendsFiled(ItemView, SameItem, db.items, PackIds(p.orders), ItemsOf(index, p.items), filed, index);
    ItemsSpelled(db, branches, p);
  }

  lemma PaymentsAppended(db: Db, branches: Branches, p: Pack)
    requires Ready(db, branches, p.orders) && BranchCodesClean(p) && PaymentIdsFree(db.payments, p)
    requires Distinct(Map(PaymentKey, p.payments))
    requires PaymentsResolve(branches, Index(db, branches, p.orders), p.payments)
    ensures Written(db, branches, p)
         == Outside(PaymentView, db.payments, PackIds(p.orders)) + Map(FiledPaymentRow, p.payments)
  {
    var index, filed := Index(db, branches, p.orders), FiledPayments(p);
    ImportedIdsAreThePacks(db, branches, p.orders);
    SameOrdersSameOutside(PaymentView, db.payments, ImportedIds(db, branches, p.orders), PackIds(p.orders));
    ByPaymentId();
    PaymentsAreMade(branches, index, p.payments);
    FreePaymentIds(db.payments, p);
    forall j | 0 <= j < |filed|
      ensures !WillMiss(PaymentView, db.payments, PackIds(p.orders), filed[..j], filed[j])
    {
      FiledOnce(p, j);
      assert !HeldElsewhere(PaymentView, db.payments, PackIds(p.orders), PaymentId(p.payments[j]));
    }
    InsertAppendsFiled(PaymentView, SamePayment, db.payments, PackIds(p.orders),
                       PaymentsOf(branches, index, p.payments), filed, index);
    PaymentsSpelled(db, branches, p);
  }

  /** The hardening in a payment's fields: mobile money becomes pending and provider-gated, which
      changes it exactly when it was counted; any other payment stays as it is. */
  lemma {:induction false} HardeningSpelled(q: Payment)
    ensures Harden(q) ==
              if q.payMethod != "MOMO" then q
              else Payment(q.id, q.orderId, q.amount, "MOMO", "PENDING", "ONLINE_PROVIDER")
    ensures Unhardened(q) <==> Harden(q) != q
  {
  }

  lemma FiledPaymentsAreHard(payments: seq<PaymentRow>)
    requires PaymentsSafe(payments)
    ensures Map(Harden, Map(FiledPaymentRow, payments)) == Map(FiledPaymentRow, payments)
  {
    forall j | 0 <= j < |payments| ensures Harden(FiledPaymentRow(payments[j])) == FiledPaymentRow(payments[j]) {
      assert MobileMoneySafe(payments[j]);
    }
  }

  lemma MapConcat<A, B>(f: A -> B, xs: seq<A>, ys: seq<A>)
    ensures Map(f, xs + ys) == Map(f, xs) + Map(f, ys)
  {
  }

  /** Nothing lost: from a clean start where no other order holds an id of the file's, the items
      and payments tables end as the rows of other orders, mobile money hardened, followed by the
      file's rows in their order, each with its id, its order's id and all its fields. */
  lemma {:induction false} RowsStoredAsFiled(db: Db, branches: Branches, p: Pack, lower: string -> string)
    requires Accepts(p, lower) && CleanStart(db, branches, p) && BranchCodesClean(p)
    requires LinesDistinct(p.items) && ItemIdsFree(db.items, p) && PaymentIdsFree(db.payments, p)
    requires Import(db, branches, p).1.None?
    ensures var after, ids := Import(db, branches, p).0, PackIds(p.orders);
            && after.items == Outside(ItemView, db.items, ids) + Map(FiledItemRow, p.items)
            && after.payments == Map(Harden, Outside(PaymentView, db.payments, ids)) + Map(FiledPaymentRow, p.payments)
  {
    CleanStartIsReady(db, branches, p, lower);
    ItemsAppended(db, branches, p);
    PaymentsAppended(db, branches, p);
    MapConcat(Harden, Outside(PaymentView, db.payments, PackIds(p.orders)), Map(FiledPaymentRow, p.payments));
    FiledPaymentsAreHard(p.payments);
  }

  // ---------- The sums, in stored fields ----------

  /** What an order of the file is due in the store: its items and the file's modifiers make up its
      subtotal, and its payments its total if it is closed. */
  predicate OrderSettled(after: Db, s: Order, o: OrderRow, modifiers: seq<Charge>) {
    && StoredItemsTotal(s, after.items) + ModifiersTotal(o, modifiers) == s.subtotal
    && s.subtotal + s.tax - s.discount == s.total
    && (s.status == "CLOSED" ==> StoredPaymentsTotal(s, after.payments) == s.total)
    && StoredPaymentsTotal(s, after.payments) <= s.total
  }

  lemma SettledByLaws(after: Db, branches: Branches, p: Pack, k: nat, i: nat)
    requires BranchCodesClean(p) && Conserved(after, p.orders) && Itemized(after, p)
    requires k < |after.orders| && i < |p.orders| && after.orders[k].id == RowId(p.orders[i])
    ensures OrderSettled(after, after.orders[k], p.orders[i], p.modifiers)
  {
    var s := after.orders[k];
    StoredTotals(s, after.items, after.payments);
    ModifiersAreFiltered(p, p.orders[i]);
    assert DuesMet(s, PaidIn(s.id, after.payments));
  }

  /** End to end, in the fields of files and tables: an accepted pack whose items differ in branch,
      order or line, imported where pack orders are absent or unaltered and no other order holds an
      id of the file's, leaves every order it lists stored, itemized and paid as due. */
  lemma {:induction false} EveryListedOrderIsSettled(
    db: Db, branches: Branches, p: Pack, lower: string -> string, k: nat, i: nat)
    requires Accepts(p, lower) && CleanStart(db, branches, p) && BranchCodesClean(p) && ChargesListed(p)
    requires LinesDistinct(p.items) && ItemIdsFree(db.items, p) && PaymentIdsFree(db.payments, p)
    requires k < |Import(db, branches, p).0.orders| && i < |p.orders|
    requires var s, o := Import(db, branches, p).0.orders[k], p.orders[i];
             o.branch in branches && s.branchId == branches[o.branch] && s.number == o.number
    ensures var after := Import(db, branches, p).0;
            && IsFiledOrder(after.orders[k], branches, p.orders[i])
            && OrderSettled(after, after.orders[k], p.orders[i], p.modifiers)
  {
    var after := Import(db, branches, p).0;
    ListedChargesHaveOrders(branches, p);
    CleanStartSucceeds(db, branches, p, lower);
    PaymentsConserved(db, branches, p, lower);
    NoItemIsLost(db.items, p);
    FreePaymentIds(db.payments, p);
    WithoutSquattersNothingIsLost(db.payments, p, lower);
    assert SameOrder(after.orders[k], OrderOf(branches, p.orders[i]));
    OrderOfIsFiled(branches, p.orders[i]);
    SettledByLaws(after, branches, p, k, i);
  }

  // ---------- Where a run that stops leaves the tables ----------

  /** An order of an unknown branch stops the import before it writes anything; otherwise all the
      orders are inserted, whatever happens next. */
  lemma {:induction false} UnknownBranchStopsTheImport(db: Db, branches: Branches, p: Pack)
    ensures Import(db, branches, p).1 == Some(UnknownBranch) <==>
              exists i :: 0 <= i < |p.orders| && p.orders[i].branch !in branches
    ensures if Import(db, branches, p).1 == Some(UnknownBranch) then Import(db, branches, p).0 == db
            else forall i :: 0 <= i < |p.orders| ==>
                   exists k :: 0 <= k < |Import(db, branches, p).0.orders|
                     && (|| Import(db, branches, p).0.orders[k].id ==
                              StoredOrderId(p.orders[i].branch, p.orders[i].number)
                         || (&& Import(db, branches, p).0.orders[k].branchId == branches[p.orders[i].branch]
                             && Import(db, branches, p).0.orders[k].number == p.orders[i].number))
  {
    if BranchesKnown(branches, p.orders) {
      var after := OrdersAfter(db, branches, p.orders);
      OrdersOfAnyOutcome(db, branches, p);
      forall i | 0 <= i < |p.orders|
        ensures exists k :: 0 <= k < |after| && SameOrder(after[k], OrdersOf(branches, p.orders)[i])
      {
        InsertCoversBatch(SameOrder, db.orders, OrdersOf(branches, p.orders), i);
      }
      forall i | 0 <= i < |p.orders| ensures OrdersOf(branches, p.orders)[i].id ==
                                             StoredOrderId(p.orders[i].branch, p.orders[i].number)
      {
        OrderIdSpelled(p.orders[i]);
      }
    }
  }

  lemma OneMorePaymentKey(p: Pack, q: PaymentRow, lower: string -> string)
    requires KeysUnique(p, lower) && PaymentKey(q) !in Map(PaymentKey, p.payments)
    ensures KeysUnique(p.(payments := p.payments + [q]), lower)
  {
    var r := p.(payments := p.payments + [q]);
    assert Map(PaymentKey, r.payments) == Map(PaymentKey, p.payments) + [PaymentKey(q)];
    KeysUniqueSplit(p, lower);
    KeysUniqueSplit(r, lower);
  }

  lemma StrayPaymentIsAccepted(p: Pack, q: PaymentRow, lower: string -> string)
    requires Accepts(p, lower) && Amount(q.charge.amount, 2).Some? && MobileMoneySafe(q)
    requires !KeyInPack(p.orders, ChargeKey(q)) && PaymentKey(q) !in Map(PaymentKey, p.payments)
    ensures Accepts(p.(payments := p.payments + [q]), lower)
  {
    var r := p.(payments := p.payments + [q]);
    var before, stray := Map(PaymentEntry, p.payments), PaymentEntry(q);
    var orders := Map(FiguresOf, p.orders);
    assert Map(PaymentEntry, r.payments) == before + [stray];
    OneMorePaymentKey(p, q, lower);
    forall i | 0 <= i < |orders| ensures PaymentsAddUp(orders[i], Total(orders[i].key, before + [stray])) {
      assert OrderKey(p.orders[i]) != ChargeKey(q);
      TotalSnoc(orders[i].key, before, stray);
    }
    assert PaymentsSafe(r.payments);
  }

  /** A payment for an order that is not listed leaves a pack accepted. The import then stops with
      orders and items written and every payment of the pack's orders gone, old and new. */
  lemma {:induction false} StrayPaymentStopsTheImport(
    db: Db, branches: Branches, p: Pack, q: PaymentRow, lower: string -> string)
    requires Accepts(p, lower) && Amount(q.charge.amount, 2).Some? && MobileMoneySafe(q)
    requires !KeyInPack(p.orders, ChargeKey(q)) && PaymentKey(q) !in Map(PaymentKey, p.payments)
    requires Ready(db, branches, p.orders) && PaymentsWritten(Import(db, branches, p).1)
    ensures var r := p.(payments := p.payments + [q]);
            && Accepts(r, lower)
            && Import(db, branches, r).1 == Some(UnknownOrder)
            && Import(db, branches, r).0.orders == Import(db, branches, p).0.orders
            && Import(db, branches, r).0.items == Import(db, branches, p).0.items
            && Import(db, branches, r).0.payments == Outside(PaymentView, db.payments, PackIds(p.orders))
  {
    var r := p.(payments := p.payments + [q]);
    StrayPaymentIsAccepted(p, q, lower);
    IndexFindsPackOrders(db, branches, p.orders, ChargeKey(q));
    assert !PaymentResolves(branches, Index(db, branches, r.orders), r.payments[|p.payments|]);
    ItemsAfter(db, branches, p);
    ImportedIdsAreThePacks(db, branches, p.orders);
    SameOrdersSameOutside(PaymentView, db.payments, ImportedIds(db, branches, p.orders), PackIds(p.orders));
  }

  /** A refund that names no payment of the file is accepted too. All that goes unwritten is the
      hardening. */
  lemma {:induction false} StrayRefundStopsTheHardening(
    db: Db, branches: Branches, p: Pack, refund: RefundRow, lower: string -> string)
    requires Accepts(p, lower) && Import(db, branches, p).1.None? && !RefKnown(p.payments, refund.paymentRef)
    ensures var r := p.(refunds := p.refunds + [refund]);
            && Accepts(r, lower)
            && Import(db, branches, r).1 == Some(UnknownPayment)
            && Import(db, branches, p).0 ==
                 Import(db, branches, r).0.(payments := Map(Harden, Import(db, branches, r).0.payments))
  {
    var r := p.(refunds := p.refunds + [refund]);
    assert KeyFiles(r, lower) == KeyFiles(p, lower);
    UniqueKeys(p, lower);
    PaymentIdsDistinct(p.payments);
    WrittenRefs(db, branches, p, refund.paymentRef);
    assert r.refunds[|p.refunds|] == refund;
  }
}
