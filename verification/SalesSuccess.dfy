/** When the sales import goes through: which orders it finds again after the insert, and which rows
    of the other files therefore find their order. */
module SalesSuccess {
  import opened Prelude
  import opened Keys
  import opened Money
  import opened Tables
  import opened OwnedRows
  import opened Validator
  import opened ValidatorLaws
  import opened SalesImport

  // ---------- The orders of a pack ----------

  function PackIds(rows: seq<OrderRow>): seq<Id> {
    Map(RowId, rows)
  }

  /** No two orders of the pack get the same id. */
  predicate OrderIdsDistinct(rows: seq<OrderRow>) {
    Distinct(PackIds(rows))
  }

  predicate OrderKeysDistinct(rows: seq<OrderRow>) {
    Distinct(Map(OrderKey, rows))
  }

  /** An order of the pack has this key. */
  predicate KeyInPack(rows: seq<OrderRow>, key: string) {
    exists i :: 0 <= i < |rows| && OrderKey(rows[i]) == key
  }

  lemma RowIdInjective(a: OrderRow, b: OrderRow)
    requires RowId(a) == RowId(b)
    ensures ColonKey(a.branch, a.number) == ColonKey(b.branch, b.number)
  {
    var s, t := ColonKey(a.branch, a.number), ColonKey(b.branch, b.number);
    assert s == (ORDER_LABEL + s)[|ORDER_LABEL|..] && t == (ORDER_LABEL + t)[|ORDER_LABEL|..];
  }

  /** Colon-free branch codes are enough for distinct order ids. */
  lemma {:induction false} CleanBranchesHaveDistinctIds(rows: seq<OrderRow>)
    requires OrderKeysDistinct(rows) && forall i :: 0 <= i < |rows| ==> COLON !in rows[i].branch
    ensures OrderIdsDistinct(rows)
  {
    forall i, j | 0 <= i < j < |rows| ensures PackIds(rows)[i] != PackIds(rows)[j] {
      assert Map(OrderKey, rows)[i] != Map(OrderKey, rows)[j];
      if RowId(rows[i]) == RowId(rows[j]) {
        RowIdInjective(rows[i], rows[j]);
        CutAtSeparator(rows[i].branch, rows[i].number, rows[j].branch, rows[j].number, [COLON]);
      }
    }
  }

  lemma SameIdSameRow(rows: seq<OrderRow>, i: nat, j: nat)
    requires OrderIdsDistinct(rows) && i < |rows| && j < |rows| && RowId(rows[i]) == RowId(rows[j])
    ensures i == j
  {
    assert PackIds(rows)[i] == PackIds(rows)[j];
  }

  lemma SameKeySameRow(rows: seq<OrderRow>, i: nat, j: nat)
    requires OrderKeysDistinct(rows) && i < |rows| && j < |rows| && OrderKey(rows[i]) == OrderKey(rows[j])
    ensures i == j
  {
    assert Map(OrderKey, rows)[i] == Map(OrderKey, rows)[j];
  }

  lemma PackOrdersAreDistinct(branches: Branches, rows: seq<OrderRow>, i: nat, j: nat)
    requires Injective(branches) && BranchesKnown(branches, rows) && OrderIdsDistinct(rows)
    requires i < |rows| && j < |rows| && SameOrder(OrderOf(branches, rows[i]), OrderOf(branches, rows[j]))
    ensures i == j
  {
    assert RowId(rows[i]) == RowId(rows[j]);
    SameIdSameRow(rows, i, j);
  }

  predicate SameAddress(a: Order, b: Order) {
    a.id == b.id && a.branchId == b.branchId && a.number == b.number
  }

  /** Stored orders that share a unique key with an order of the pack are that order: same id,
      branch and number. Their amounts and status may have been changed. */
  predicate Addressable(db: Db, branches: Branches, rows: seq<OrderRow>)
    requires BranchesKnown(branches, rows)
  {
    forall k, i :: 0 <= k < |db.orders| && 0 <= i < |rows| && SameOrder(db.orders[k], OrderOf(branches, rows[i])) ==>
      SameAddress(db.orders[k], OrderOf(branches, rows[i]))
  }

  /** What the laws of one run ask of the pack's orders and of the store they meet. */
  predicate Ready(db: Db, branches: Branches, rows: seq<OrderRow>) {
    && Injective(branches) && BranchesKnown(branches, rows)
    && OrderKeysDistinct(rows) && OrderIdsDistinct(rows) && Addressable(db, branches, rows)
  }

  // ---------- The orders step ----------

  /** An order stored after the orders step was stored before, or it is one of the file's and no
      stored order was in its way. */
  lemma OldOrAdded(db: Db, branches: Branches, rows: seq<OrderRow>, s: Order) returns (j: int)
    requires BranchesKnown(branches, rows) && s in OrdersAfter(db, branches, rows)
    ensures j == -1 ==> s in db.orders
    ensures j != -1 ==> 0 <= j < |rows| && s == OrderOf(branches, rows[j]) && !Clashes(SameOrder, db.orders, s)
  {
    j := -1;
    InsertedRowsAreOldOrNew(SameOrder, db.orders, OrdersOf(branches, rows));
    AddedRowsDoNotClash(SameOrder, db.orders, OrdersOf(branches, rows));
    if s !in db.orders {
      j :| 0 <= j < |rows| && OrdersOf(branches, rows)[j] == s;
    }
  }

  lemma StoredOrdersAddress(db: Db, branches: Branches, rows: seq<OrderRow>, s: Order, i: nat)
    requires Ready(db, branches, rows) && i < |rows|
    requires s in OrdersAfter(db, branches, rows) && SameOrder(s, OrderOf(branches, rows[i]))
    ensures SameAddress(s, OrderOf(branches, rows[i]))
  {
    var j := OldOrAdded(db, branches, rows, s);
    if j == -1 {
      var k :| 0 <= k < |db.orders| && db.orders[k] == s;
    } else {
      PackOrdersAreDistinct(branches, rows, j, i);
    }
  }

  lemma {:induction false} SelectedExactly(orders: seq<Order>, ids: seq<Id>)
    ensures forall s :: s in Selected(orders, ids) <==> s in orders && s.id in ids
  {
    if orders != [] {
      SelectedExactly(orders[..|orders| - 1], ids);
      assert orders == orders[..|orders| - 1] + [orders[|orders| - 1]];
    }
  }

  lemma ImportedExactly(db: Db, branches: Branches, rows: seq<OrderRow>, s: Order)
    requires BranchesKnown(branches, rows)
    ensures s in Imported(db, branches, rows) <==> s in OrdersAfter(db, branches, rows) && s.id in PackIds(rows)
  {
    SelectedExactly(OrdersAfter(db, branches, rows), IdsOf(OrdersOf(branches, rows)));
    assert IdsOf(OrdersOf(branches, rows)) == PackIds(rows);
  }

  /** Every pack order is among the imported ones, under its own id. */
  lemma PackOrderIsImported(db: Db, branches: Branches, rows: seq<OrderRow>, i: nat) returns (s: Order)
    requires Ready(db, branches, rows) && i < |rows|
    ensures s in Imported(db, branches, rows) && SameAddress(s, OrderOf(branches, rows[i]))
  {
    var creates, stored := OrdersOf(branches, rows), OrdersAfter(db, branches, rows);
    InsertCoversBatch(SameOrder, db.orders, creates, i);
    var k :| 0 <= k < |stored| && SameOrder(stored[k], creates[i]);
    s := stored[k];
    StoredOrdersAddress(db, branches, rows, s, i);
    assert PackIds(rows)[i] == s.id;
    ImportedExactly(db, branches, rows, s);
  }

  /** Every imported order is a pack order, under its own id. */
  lemma ImportedIsPackOrder(db: Db, branches: Branches, rows: seq<OrderRow>, s: Order) returns (i: nat)
    requires Ready(db, branches, rows) && s in Imported(db, branches, rows)
    ensures i < |rows| && SameAddress(s, OrderOf(branches, rows[i]))
  {
    ImportedExactly(db, branches, rows, s);
    i :| 0 <= i < |rows| && PackIds(rows)[i] == s.id;
    StoredOrdersAddress(db, branches, rows, s, i);
  }

  lemma ImportedIdsAreThePacks(db: Db, branches: Branches, rows: seq<OrderRow>)
    requires Ready(db, branches, rows)
    ensures forall id :: id in ImportedIds(db, branches, rows) <==> id in PackIds(rows)
  {
    var imported := Imported(db, branches, rows);
    forall id ensures id in ImportedIds(db, branches, rows) <==> id in PackIds(rows) {
      if k :| 0 <= k < |imported| && ImportedIds(db, branches, rows)[k] == id {
        var i := ImportedIsPackOrder(db, branches, rows, imported[k]);
        assert PackIds(rows)[i] == id;
      }
      if i :| 0 <= i < |rows| && PackIds(rows)[i] == id {
        var s := PackOrderIsImported(db, branches, rows, i);
        var k :| 0 <= k < |imported| && imported[k] == s;
        assert ImportedIds(db, branches, rows)[k] == id;
      }
    }
  }

  // ---------- The index ----------

  /** s is what the index holds under this key. */
  ghost predicate Indexes(branches: Branches, s: Order, key: string, id: Id) {
    && s.id == id && HasCode(branches, s.branchId)
    && key == PairKey(CodeOf(branches, s.branchId), s.number)
  }

  lemma {:induction false} IndexSound(branches: Branches, orders: seq<Order>, key: string) returns (s: Order)
    requires key in OrderIndex(branches, orders)
    ensures s in orders && Indexes(branches, s, key, OrderIndex(branches, orders)[key])
  {
    var init, last := orders[..|orders| - 1], orders[|orders| - 1];
    if Indexes(branches, last, key, OrderIndex(branches, orders)[key]) {
      s := last;
    } else {
      s := IndexSound(branches, init, key);
    }
  }

  lemma {:induction false} IndexComplete(branches: Branches, orders: seq<Order>, s: Order)
    requires s in orders && HasCode(branches, s.branchId)
    ensures PairKey(CodeOf(branches, s.branchId), s.number) in OrderIndex(branches, orders)
  {
    var init, last := orders[..|orders| - 1], orders[|orders| - 1];
    assert orders == init + [last];
    if s in init {
      IndexComplete(branches, init, s);
    }
  }

  lemma CodeOfBranch(branches: Branches, code: string)
    requires Injective(branches) && code in branches
    ensures HasCode(branches, branches[code]) && CodeOf(branches, branches[code]) == code
  {
  }

  /** The index holds exactly the keys of the pack's orders, each with the order's own id. */
  lemma {:induction false} IndexFindsPackOrders(db: Db, branches: Branches, rows: seq<OrderRow>, key: string)
    requires Ready(db, branches, rows)
    ensures key in Index(db, branches, rows) <==> KeyInPack(rows, key)
    ensures forall i :: 0 <= i < |rows| && OrderKey(rows[i]) == key ==>
              key in Index(db, branches, rows) && Index(db, branches, rows)[key] == RowId(rows[i])
  {
    var orders := Imported(db, branches, rows);
    if key in Index(db, branches, rows) {
      var s := IndexSound(branches, orders, key);
      var j := ImportedIsPackOrder(db, branches, rows, s);
      CodeOfBranch(branches, rows[j].branch);
      assert OrderKey(rows[j]) == key;
      forall i | 0 <= i < |rows| && OrderKey(rows[i]) == key ensures i == j {
        SameKeySameRow(rows, i, j);
      }
    }
    if i :| 0 <= i < |rows| && OrderKey(rows[i]) == key {
      var s := PackOrderIsImported(db, branches, rows, i);
      CodeOfBranch(branches, rows[i].branch);
      IndexComplete(branches, orders, s);
    }
  }

  /** Exactly the key of an order leads to its id. */
  lemma OnlyItsKey(db: Db, branches: Branches, rows: seq<OrderRow>, i: nat)
    requires Ready(db, branches, rows) && i < |rows|
    ensures OnlyKeyOf(Index(db, branches, rows), OrderKey(rows[i]), RowId(rows[i]))
  {
    var index := Index(db, branches, rows);
    forall k | k in index ensures index[k] == RowId(rows[i]) <==> k == OrderKey(rows[i]) {
      IndexFindsPackOrders(db, branches, rows, k);
      var j :| 0 <= j < |rows| && OrderKey(rows[j]) == k;
      if RowId(rows[j]) == RowId(rows[i]) {
        SameIdSameRow(rows, i, j);
      }
    }
  }

  // ---------- The references of refunds ----------

  /** A payment goes by its transaction id, or else the provider's reference, or else its order,
      method and amount. */
  predicate GoesBy(q: PaymentRow, ref: string) {
    && (q.transactionId != "" ==> ref == q.transactionId)
    && (q.transactionId == "" && q.providerRef != "" ==> ref == q.providerRef)
    && (q.transactionId == "" && q.providerRef == "" ==>
          ref == Join([q.charge.branch, q.charge.number, "", q.payMethod, q.charge.amount], "::"))
  }

  /** A payment of the file goes by this reference. */
  predicate RefKnown(payments: seq<PaymentRow>, ref: string) {
    exists j :: 0 <= j < |payments| && GoesBy(payments[j], ref)
  }

  lemma GoesByItsRef(q: PaymentRow, ref: string)
    ensures GoesBy(q, ref) <==> ref == RefOf(q)
  {
  }

  lemma PaymentIdsDiffer(payments: seq<PaymentRow>, t: nat, j: nat)
    requires Distinct(Map(PaymentKey, payments)) && t < |payments| && j < |payments|
    requires PaymentId(payments[t]) == PaymentId(payments[j])
    ensures t == j
  {
    var a, b := PaymentKey(payments[t]), PaymentKey(payments[j]);
    assert a == Map(PaymentKey, payments)[t] && b == Map(PaymentKey, payments)[j];
    assert a == (PAYMENT_LABEL + a)[|PAYMENT_LABEL|..] && b == (PAYMENT_LABEL + b)[|PAYMENT_LABEL|..];
  }

  function PaymentIds(rows: seq<PaymentRow>): seq<Id> {
    Map(PaymentId, rows)
  }

  lemma PaymentIdsDistinct(rows: seq<PaymentRow>)
    requires Distinct(Map(PaymentKey, rows))
    ensures Distinct(PaymentIds(rows))
  {
    forall i, j | 0 <= i < j < |rows| ensures PaymentIds(rows)[i] != PaymentIds(rows)[j] {
      if PaymentId(rows[i]) == PaymentId(rows[j]) {
        PaymentIdsDiffer(rows, i, j);
      }
    }
  }

  lemma {:induction false} RefsByIdKeys(rows: seq<PaymentRow>, id: Id)
    ensures id in RefsById(rows) <==> id in PaymentIds(rows)
  {
    if rows != [] {
      var n := |rows| - 1;
      RefsByIdKeys(rows[..n], id);
      assert PaymentIds(rows) == PaymentIds(rows[..n]) + [PaymentId(rows[n])];
    }
  }

  lemma {:induction false} RefsByIdAt(rows: seq<PaymentRow>, j: nat)
    requires Distinct(PaymentIds(rows)) && j < |rows|
    ensures PaymentIds(rows)[j] in RefsById(rows) && RefsById(rows)[PaymentIds(rows)[j]] == RefOf(rows[j])
  {
    var n := |rows| - 1;
    if j < n {
      assert PaymentIds(rows[..n]) == PaymentIds(rows)[..n];
      RefsByIdAt(rows[..n], j);
      assert PaymentIds(rows)[j] != PaymentIds(rows)[n];
    }
  }

  lemma {:induction false} RefsFoundExactly(stored: seq<Payment>, refs: map<Id, string>, ref: string)
    ensures ref in RefsFound(stored, refs) <==>
              exists k :: 0 <= k < |stored| && stored[k].id in refs && refs[stored[k].id] == ref
  {
    if stored != [] {
      var n := |stored| - 1;
      RefsFoundExactly(stored[..n], refs, ref);
      if k :| 0 <= k < n && stored[..n][k].id in refs && refs[stored[..n][k].id] == ref {
        assert stored[k].id in refs && refs[stored[k].id] == ref;
      }
      if k :| 0 <= k < |stored| && stored[k].id in refs && refs[stored[k].id] == ref && k < n {
        assert stored[..n][k].id in refs && refs[stored[..n][k].id] == ref;
      }
    }
  }

  lemma ByPaymentId()
    ensures ConflictsById(PaymentView, SamePayment)
  {
  }

  lemma ByItemId()
    ensures ConflictsById(ItemView, SameItem)
  {
  }

  lemma WrittenHoldsFiled(db: Db, branches: Branches, p: Pack, j: nat) returns (k: nat)
    requires BranchesKnown(branches, p.orders)
    requires PaymentsResolve(branches, Index(db, branches, p.orders), p.payments) && j < |p.payments|
    ensures k < |Written(db, branches, p)| && Written(db, branches, p)[k].id == PaymentIds(p.payments)[j]
  {
    var creates := PaymentsOf(branches, Index(db, branches, p.orders), p.payments);
    var id := PaymentIds(p.payments)[j];
    ByPaymentId();
    assert PaymentView(creates[j]).id == id;
    HeldAfterInsert(PaymentView, SamePayment, KeptPayments(db, branches, p.orders), creates, id);
    k :| 0 <= k < |Written(db, branches, p)| && PaymentView(Written(db, branches, p)[k]).id == id;
  }

  /** With unique natural keys every payment of the file is found again, by exactly its reference,
      even where the insert left another payment in its place. */
  lemma WrittenRefs(db: Db, branches: Branches, p: Pack, ref: string)
    requires BranchesKnown(branches, p.orders) && Distinct(PaymentIds(p.payments))
    requires PaymentsResolve(branches, Index(db, branches, p.orders), p.payments)
    ensures ref in RefsFound(Written(db, branches, p), RefsById(p.payments)) <==> RefKnown(p.payments, ref)
  {
    var written, refs, ids := Written(db, branches, p), RefsById(p.payments), PaymentIds(p.payments);
    RefsFoundExactly(written, refs, ref);
    if j :| 0 <= j < |p.payments| && GoesBy(p.payments[j], ref) {
      GoesByItsRef(p.payments[j], ref);
      var k := WrittenHoldsFiled(db, branches, p, j);
      RefsByIdAt(p.payments, j);
      assert refs[written[k].id] == ref;
    }
    if k :| 0 <= k < |written| && written[k].id in refs && refs[written[k].id] == ref {
      RefsByIdKeys(p.payments, written[k].id);
      var j :| 0 <= j < |ids| && ids[j] == written[k].id;
      RefsByIdAt(p.payments, j);
      GoesByItsRef(p.payments[j], ref);
    }
  }

  // ---------- When the import goes through ----------

  /** The refund is for an order under one of the keys, and for a payment of the file. */
  ghost predicate RefundFinds(branches: Branches, keys: iset<string>, payments: seq<PaymentRow>, r: RefundRow) {
    r.branch in branches && PairKey(r.branch, r.number) in keys && RefKnown(payments, r.paymentRef)
  }

  /** Every item and payment is for an order under one of these keys. */
  ghost predicate ChargesFind(branches: Branches, keys: iset<string>, p: Pack) {
    && (forall i :: 0 <= i < |p.items| ==> ItemKey(p.items[i]) in keys)
    && (forall i :: 0 <= i < |p.payments| ==>
          p.payments[i].charge.branch in branches && ChargeKey(p.payments[i]) in keys)
  }

  ghost predicate RefundsFind(branches: Branches, keys: iset<string>, p: Pack) {
    forall i :: 0 <= i < |p.refunds| ==> RefundFinds(branches, keys, p.payments, p.refunds[i])
  }

  lemma ChargesFindIff(branches: Branches, index: map<string, Id>, keys: iset<string>, p: Pack)
    requires forall key :: key in keys <==> key in index
    ensures ItemsResolve(index, p.items) && PaymentsResolve(branches, index, p.payments)
       <==> ChargesFind(branches, keys, p)
  {
    forall i | 0 <= i < |p.payments|
      ensures PaymentResolves(branches, index, p.payments[i])
         <==> p.payments[i].charge.branch in branches && ChargeKey(p.payments[i]) in keys
    {
    }
  }

  /** The keys the index holds decide the outcome. */
  lemma GoesThroughIff(db: Db, branches: Branches, p: Pack, keys: iset<string>)
    requires BranchesKnown(branches, p.orders) && Distinct(PaymentIds(p.payments))
    requires forall key :: key in keys <==> key in Index(db, branches, p.orders)
    ensures PaymentsWritten(Import(db, branches, p).1) <==> ChargesFind(branches, keys, p)
    ensures Import(db, branches, p).1.None? <==> ChargesFind(branches, keys, p) && RefundsFind(branches, keys, p)
  {
    var index := Index(db, branches, p.orders);
    ChargesFindIff(branches, index, keys, p);
    if ChargesFind(branches, keys, p) {
      var refs := RefsFound(Written(db, branches, p), RefsById(p.payments));
      forall i | 0 <= i < |p.refunds|
        ensures RefundResolves(branches, index, refs, p.refunds[i])
           <==> RefundFinds(branches, keys, p.payments, p.refunds[i])
      {
        WrittenRefs(db, branches, p, p.refunds[i].paymentRef);
      }
    }
  }

  /** The keys of the pack's orders. */
  ghost function PackKeys(rows: seq<OrderRow>): iset<string> {
    iset key | KeyInPack(rows, key)
  }

  /** Where the pack's orders are absent or at their address, the import goes through exactly when
      every item and payment is for an order of the pack, and every refund for an order and a
      payment of it. It gets as far as writing the payments whatever the refunds are. */
  lemma {:induction false} ImportSucceedsIff(db: Db, branches: Branches, p: Pack)
    requires Ready(db, branches, p.orders) && Distinct(Map(PaymentKey, p.payments))
    ensures Import(db, branches, p).1.None? <==>
              ChargesFind(branches, PackKeys(p.orders), p) && RefundsFind(branches, PackKeys(p.orders), p)
    ensures PaymentsWritten(Import(db, branches, p).1) <==> ChargesFind(branches, PackKeys(p.orders), p)
  {
    PaymentIdsDistinct(p.payments);
    forall key ensures key in Index(db, branches, p.orders) <==> KeyInPack(p.orders, key) {
      IndexFindsPackOrders(db, branches, p.orders, key);
    }
    GoesThroughIff(db, branches, p, PackKeys(p.orders));
  }

  // ---------- On any store ----------

  /** A stored order has this key, and the id of some order of the pack. */
  ghost predicate StoredUnder(db: Db, branches: Branches, rows: seq<OrderRow>, key: string) {
    exists k :: 0 <= k < |db.orders| && db.orders[k].id in PackIds(rows)
                && Indexes(branches, db.orders[k], key, db.orders[k].id)
  }

  /** An order of the pack has this key, and no stored order is in its way. */
  predicate AddedUnder(db: Db, branches: Branches, rows: seq<OrderRow>, key: string)
    requires BranchesKnown(branches, rows)
  {
    exists i :: 0 <= i < |rows| && OrderKey(rows[i]) == key
                && !Clashes(SameOrder, db.orders, OrderOf(branches, rows[i]))
  }

  ghost predicate Reachable(db: Db, branches: Branches, rows: seq<OrderRow>, key: string)
    requires BranchesKnown(branches, rows)
  {
    StoredUnder(db, branches, rows, key) || AddedUnder(db, branches, rows, key)
  }

  lemma {:induction false} AddedIsStored(rows: seq<Order>, creates: seq<Order>, i: nat) returns (s: Order, j: nat)
    requires i < |creates| && !Clashes(SameOrder, rows, creates[i])
    ensures s in InsertIgnore(SameOrder, rows, creates) && SameOrder(s, creates[i])
    ensures j < |creates| && creates[j] == s
  {
    var stored := InsertIgnore(SameOrder, rows, creates);
    InsertCoversBatch(SameOrder, rows, creates, i);
    var k :| 0 <= k < |stored| && SameOrder(stored[k], creates[i]);
    s := stored[k];
    InsertedRowsAreOldOrNew(SameOrder, rows, creates);
    forall x | x in rows ensures !SameOrder(x, creates[i]) {
      var h :| 0 <= h < |rows| && rows[h] == x;
    }
    j :| 0 <= j < |creates| && creates[j] == s;
  }

  lemma ReachableIsIndexed(db: Db, branches: Branches, rows: seq<OrderRow>, key: string)
    requires Injective(branches) && BranchesKnown(branches, rows) && OrderIdsDistinct(rows)
    requires Reachable(db, branches, rows, key)
    ensures key in Index(db, branches, rows)
  {
    var creates := OrdersOf(branches, rows);
    if k :| 0 <= k < |db.orders| && db.orders[k].id in PackIds(rows)
            && Indexes(branches, db.orders[k], key, db.orders[k].id) {
      InsertKeepsOldRows(SameOrder, db.orders, creates);
      assert OrdersAfter(db, branches, rows)[k] == db.orders[k];
      ImportedExactly(db, branches, rows, db.orders[k]);
      IndexComplete(branches, Imported(db, branches, rows), db.orders[k]);
    } else {
      var i :| 0 <= i < |rows| && OrderKey(rows[i]) == key
               && !Clashes(SameOrder, db.orders, OrderOf(branches, rows[i]));
      var s, j := AddedIsStored(db.orders, creates, i);
      PackOrdersAreDistinct(branches, rows, j, i);
      assert PackIds(rows)[i] == s.id;
      ImportedExactly(db, branches, rows, s);
      CodeOfBranch(branches, rows[i].branch);
      IndexComplete(branches, Imported(db, branches, rows), s);
    }
  }

  lemma IndexedIsReachable(db: Db, branches: Branches, rows: seq<OrderRow>, key: string)
    requires Injective(branches) && BranchesKnown(branches, rows)
    requires key in Index(db, branches, rows)
    ensures Reachable(db, branches, rows, key)
  {
    var s := IndexSound(branches, Imported(db, branches, rows), key);
    ImportedExactly(db, branches, rows, s);
    var j := OldOrAdded(db, branches, rows, s);
    if j == -1 {
      var k :| 0 <= k < |db.orders| && db.orders[k] == s;
      assert StoredUnder(db, branches, rows, key);
    } else {
      CodeOfBranch(branches, rows[j].branch);
      assert OrderKey(rows[j]) == key;
    }
  }

  ghost function ReachableKeys(db: Db, branches: Branches, rows: seq<OrderRow>): iset<string>
    requires BranchesKnown(branches, rows)
  {
    iset key | Reachable(db, branches, rows, key)
  }

  /** The exact condition for any store whatever, also one where other orders occupy the addresses
      or ids of the pack's: the order of every row was stored under its key with an id of the pack,
      or is added without a stored order in its way; and refunds name payments of the file. */
  lemma {:induction false} ImportSucceedsAnywhereIff(db: Db, branches: Branches, p: Pack)
    requires Injective(branches) && BranchesKnown(branches, p.orders) && OrderIdsDistinct(p.orders)
    requires Distinct(Map(PaymentKey, p.payments))
    ensures var keys := ReachableKeys(db, branches, p.orders);
            Import(db, branches, p).1.None? <==> ChargesFind(branches, keys, p) && RefundsFind(branches, keys, p)
  {
    PaymentIdsDistinct(p.payments);
    forall key ensures key in Index(db, branches, p.orders) <==> Reachable(db, branches, p.orders, key) {
      if key in Index(db, branches, p.orders) {
        IndexedIsReachable(db, branches, p.orders, key);
      }
      if Reachable(db, branches, p.orders, key) {
        ReachableIsIndexed(db, branches, p.orders, key);
      }
    }
    GoesThroughIff(db, branches, p, ReachableKeys(db, branches, p.orders));
  }

  // ---------- Accepted packs that stop the import ----------

  lemma {:induction false} SelectedByNone(orders: seq<Order>)
    ensures Selected(orders, []) == []
  {
    if orders != [] {
      SelectedByNone(orders[..|orders| - 1]);
    }
  }

  lemma NoOrdersNoIndex(db: Db, branches: Branches)
    ensures OrdersOf(branches, []) == [] && Index(db, branches, []) == map[]
  {
    assert OrdersOf(branches, []) == [] && IdsOf([]) == [];
    SelectedByNone(OrdersAfter(db, branches, []));
    assert Index(db, branches, []) == OrderIndex(branches, []);
  }

  /** Any accepted pack stays accepted with one more readable item for an order that is not in it:
      its sum is held against no order. */
  lemma {:induction false} StrayItemIsAccepted(p: Pack, item: ItemRow, lower: string -> string)
    requires Accepts(p, lower) && Amount(item.charge.amount, 2).Some? && !KeyInPack(p.orders, ItemKey(item))
    ensures Accepts(p.(items := p.items + [item]), lower)
  {
    var q := p.(items := p.items + [item]);
    var before, stray := Map(ChargeEntry, ItemCharges(p.items)), ChargeEntry(item.charge);
    var orders, modifiers := Map(FiguresOf, p.orders), Map(ChargeEntry, p.modifiers);
    assert Map(ChargeEntry, ItemCharges(q.items)) == before + [stray];
    assert KeyFiles(q, lower) == KeyFiles(p, lower);
    forall i | 0 <= i < |orders|
      ensures ChargesAddUp(orders[i], Total(orders[i].key, before + [stray]) + Total(orders[i].key, modifiers))
    {
      assert OrderKey(p.orders[i]) != ItemKey(item);
      TotalSnoc(orders[i].key, before, stray);
    }
  }

  /** But the import then stops, after the old items are deleted and before the payments: no run
      with such a pack repairs anything. */
  lemma {:induction false} StrayItemStopsTheImport(
    db: Db, branches: Branches, p: Pack, item: ItemRow, lower: string -> string)
    requires Accepts(p, lower) && Amount(item.charge.amount, 2).Some? && !KeyInPack(p.orders, ItemKey(item))
    requires Ready(db, branches, p.orders)
    ensures var q := p.(items := p.items + [item]);
            && Accepts(q, lower)
            && Import(db, branches, q).1 == Some(UnknownOrder)
            && Import(db, branches, q).0.items == KeptItems(db, branches, p.orders)
            && Import(db, branches, q).0.payments == db.payments
  {
    var q := p.(items := p.items + [item]);
    StrayItemIsAccepted(p, item, lower);
    IndexFindsPackOrders(db, branches, p.orders, ItemKey(item));
    assert ItemKey(q.items[|p.items|]) !in Index(db, branches, q.orders);
    assert !ItemsResolve(Index(db, branches, q.orders), q.items);
  }

  /** A payment for a missing order is accepted too; the import stops with the old payments gone. */
  lemma {:induction false} PaymentWithoutOrderStopsTheImport(
    db: Db, branches: Branches, payment: PaymentRow, lower: string -> string)
    requires Amount(payment.charge.amount, 2).Some? && MobileMoneySafe(payment)
    ensures Accepts(NO_ROWS.(payments := [payment]), lower)
    ensures Import(db, branches, NO_ROWS.(payments := [payment])).1 == Some(UnknownOrder)
  {
    var p := NO_ROWS.(payments := [payment]);
    assert Map(PaymentEntry, p.payments)[0].cents.Some?;
    SmallPackIsAccepted(p, lower);
    NoOrdersNoIndex(db, branches);
    assert !PaymentResolves(branches, Index(db, branches, p.orders), p.payments[0]);
  }

  /** The validator does not look at refunds at all; one without its payment stops the import before the
      hardening. */
  lemma {:induction false} RefundWithoutPaymentStopsTheImport(
    db: Db, branches: Branches, refund: RefundRow, lower: string -> string)
    ensures Accepts(NO_ROWS.(refunds := [refund]), lower)
    ensures Import(db, branches, NO_ROWS.(refunds := [refund])).1 == Some(UnknownPayment)
  {
    var p := NO_ROWS.(refunds := [refund]);
    SmallPackIsAccepted(p, lower);
    NoOrdersNoIndex(db, branches);
    GoesThroughIff(db, branches, p, iset{});
    assert !RefundFinds(branches, iset{}, p.payments, p.refunds[0]);
  }
}
