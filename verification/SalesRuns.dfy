/** The sales import run again and again: histories of runs and edits, what no run repairs, the
    fixpoint, and the hardening. */
module SalesRuns {
  import opened Prelude
  import opened Keys
  import opened Money
  import opened Tables
  import opened OwnedRows
  import opened Validator
  import opened ValidatorLaws
  import opened SalesImport
  import opened SalesSuccess
  import opened SalesLaws

  // ---------- Any number of runs ----------

  /** What a run finds in place of what the last one left: the items and payments, edited at will. */
  datatype Edit = Edit(items: seq<Item>, payments: seq<Payment>)

  /** Runs of the importer, each after someone has edited the stored items and payments. */
  ghost function AfterRuns(orders: seq<Order>, edits: seq<Edit>, branches: Branches, p: Pack): Db
    requires edits != []
  {
    var last := edits[|edits| - 1];
    var before := if |edits| == 1 then orders else AfterRuns(orders, edits[..|edits| - 1], branches, p).orders;
    Import(Db(before, last.items, last.payments), branches, p).0
  }

  /** Every item and payment of the pack is for one of its orders. Refunds do not matter. */
  ghost predicate ChargesHaveOrders(branches: Branches, p: Pack) {
    ChargesFind(branches, PackKeys(p.orders), p)
  }

  lemma CleanStartSucceeds(db: Db, branches: Branches, p: Pack, lower: string -> string)
    requires Accepts(p, lower) && CleanStart(db, branches, p) && ChargesHaveOrders(branches, p)
    ensures PaymentsWritten(Import(db, branches, p).1)
  {
    CleanStartIsReady(db, branches, p, lower);
    ImportSucceedsIff(db, branches, p);
  }

  /** Safety over whole histories: however the items and payments are added to, removed, moved or
      rewritten between the runs, the last run restores the balance of every order of the pack
      exactly when the payments it finds leave the needed ids free, and the items of every order
      exactly when no items are missing. Earlier runs and edits do not matter. */
  lemma {:induction false} EveryRunRestoresBalance(
    orders: seq<Order>, edits: seq<Edit>, branches: Branches, p: Pack, lower: string -> string)
    requires edits != [] && Accepts(p, lower) && ChargesHaveOrders(branches, p)
    requires CleanStart(Db(orders, [], []), branches, p)
    ensures var after, last := AfterRuns(orders, edits, branches, p), edits[|edits| - 1];
            && (Conserved(after, p.orders) <==> LossesBearable(last.payments, p))
            && (Itemized(after, p) <==> NoItemsMissing(last.items, p))
            && Unaltered(after, branches, p.orders)
  {
    var n := |edits| - 1;
    var before := if n == 0 then orders else AfterRuns(orders, edits[..n], branches, p).orders;
    if n > 0 {
      EveryRunRestoresBalance(orders, edits[..n], branches, p, lower);
    }
    var db := Db(before, edits[n].items, edits[n].payments);
    CleanStartSucceeds(db, branches, p, lower);
    PaymentsConserved(db, branches, p, lower);
  }

  // ---------- When nothing is lost ----------

  /** No payment of an order outside the pack carries the id of one of the pack's payments. */
  predicate NoSquatters(held: seq<Payment>, p: Pack) {
    forall j :: 0 <= j < |p.payments| ==>
      !HeldElsewhere(PaymentView, held, PackIds(p.orders), PaymentId(p.payments[j]))
  }

  lemma FiledOnce(p: Pack, j: nat)
    requires Distinct(Map(PaymentKey, p.payments)) && j < |p.payments|
    ensures !FiledBefore(FiledPayments(p)[..j], PaymentId(p.payments[j]))
  {
    if k :| 0 <= k < j && FiledPayments(p)[..j][k].id == PaymentId(p.payments[j]) {
      PaymentIdsDiffer(p.payments, k, j);
    }
  }

  /** Then no payment is lost, and every order is paid as due. */
  lemma {:induction false} WithoutSquattersNothingIsLost(held: seq<Payment>, p: Pack, lower: string -> string)
    requires Accepts(p, lower) && NoSquatters(held, p)
    ensures LostPayments(held, p) == [] && LossesBearable(held, p)
  {
    UniqueKeys(p, lower);
    var filed := FiledPayments(p);
    forall j | 0 <= j < |filed| ensures !WillMiss(PaymentView, held, PackIds(p.orders), filed[..j], filed[j]) {
      FiledOnce(p, j);
    }
    NothingLost(PaymentView, held, PackIds(p.orders), filed);
    forall i | 0 <= i < |p.orders| ensures LossBearable(held, p, p.orders[i]) {
      AcceptedOrder(p, lower, i);
    }
  }

  lemma CleanRunConserves(db: Db, branches: Branches, p: Pack, lower: string -> string)
    requires Accepts(p, lower) && CleanStart(db, branches, p) && ChargesHaveOrders(branches, p)
    requires NoSquatters(db.payments, p)
    ensures Conserved(Import(db, branches, p).0, p.orders)
  {
    CleanStartSucceeds(db, branches, p, lower);
    PaymentsConserved(db, branches, p, lower);
    WithoutSquattersNothingIsLost(db.payments, p, lower);
  }

  // ---------- What a run does not repair ----------

  /** After the move exactly the one payment is lost, and its order cannot bear that. */
  lemma MovedPaymentIsLost(p: Pack, held: seq<Payment>, k: nat, j: nat, i: nat, other: Id)
    requires Distinct(Map(PaymentKey, p.payments)) && NoSquatters(held, p)
    requires k < |held| && j < |p.payments| && held[k].id == PaymentId(p.payments[j])
    requires i < |p.orders| && p.orders[i].status == CLOSED && ChargeKey(p.payments[j]) == OrderKey(p.orders[i])
    requires Cents(p.payments[j].charge.amount) != 0 && other !in PackIds(p.orders)
    ensures !LossesBearable(held[k := held[k].(orderId := other)], p)
  {
    var moved, ids, filed := held[k := held[k].(orderId := other)], PackIds(p.orders), FiledPayments(p);
    forall t | 0 <= t < |filed| ensures Misses(PaymentView, moved, ids, filed, t) <==> t == j {
      FiledOnce(p, t);
      OnlyMovedIsHeldElsewhere(held, ids, k, other, filed[t].id);
      if filed[t].id == filed[j].id {
        PaymentIdsDiffer(p.payments, t, j);
      }
      assert !HeldElsewhere(PaymentView, held, ids, PaymentId(p.payments[t]));
    }
    OneLost(PaymentView, moved, ids, filed, j);
    SumUnderSnoc(OrderKey(p.orders[i]), [], filed[j]);
    assert [] + [filed[j]] == [filed[j]];
    assert !LossBearable(moved, p, p.orders[i]);
  }

  lemma OnlyMovedIsHeldElsewhere(held: seq<Payment>, ids: seq<Id>, k: nat, other: Id, id: Id)
    requires k < |held| && other !in ids && !HeldElsewhere(PaymentView, held, ids, id)
    ensures HeldElsewhere(PaymentView, held[k := held[k].(orderId := other)], ids, id) <==> id == held[k].id
  {
    var moved := held[k := held[k].(orderId := other)];
    if id == held[k].id {
      assert PaymentView(moved[k]).id == id;
    }
    assert forall h :: 0 <= h < |moved| && h != k ==> PaymentView(moved[h]) == PaymentView(held[h]);
  }

  /** The edit that a run does not repair: moving a stored payment of a closed order of the pack
      to an order outside it. The payment keeps its id, which the file then cannot use. */
  lemma {:induction false} MovedPaymentIsNotRestored(
    db: Db, branches: Branches, p: Pack, lower: string -> string, k: nat, j: nat, i: nat, other: Id)
    requires Accepts(p, lower) && CleanStart(db, branches, p) && ChargesHaveOrders(branches, p)
    requires NoSquatters(db.payments, p)
    requires k < |db.payments| && j < |p.payments| && db.payments[k].id == PaymentId(p.payments[j])
    requires i < |p.orders| && p.orders[i].status == CLOSED && ChargeKey(p.payments[j]) == OrderKey(p.orders[i])
    requires Cents(p.payments[j].charge.amount) != 0 && other !in PackIds(p.orders)
    ensures Conserved(Import(db, branches, p).0, p.orders)
    ensures var moved := db.payments[k := db.payments[k].(orderId := other)];
            !Conserved(Import(db.(payments := moved), branches, p).0, p.orders)
  {
    var edited := db.(payments := db.payments[k := db.payments[k].(orderId := other)]);
    CleanRunConserves(db, branches, p, lower);
    CleanStartSucceeds(edited, branches, p, lower);
    PaymentsConserved(edited, branches, p, lower);
    UniqueKeys(p, lower);
    MovedPaymentIsLost(p, db.payments, k, j, i, other);
  }

  lemma EditedTotalIsNotDue(s: Order, held: seq<Payment>, p: Pack, lower: string -> string, i: nat)
    requires Accepts(p, lower) && LostPayments(held, p) == []
    requires i < |p.orders| && p.orders[i].status == CLOSED == s.status && s.total != Cents(p.orders[i].total)
    ensures !DuesCheck(held, p)(s, p.orders[i])
  {
    AcceptedOrder(p, lower, i);
  }

  lemma EditedStoreFails(edited: Db, branches: Branches, p: Pack, lower: string -> string, k: nat, i: nat)
    requires Accepts(p, lower) && Ready(edited, branches, p.orders) && ChargesHaveOrders(branches, p)
    requires LostPayments(edited.payments, p) == []
    requires i < |p.orders| && k < |edited.orders| && edited.orders[k].id == RowId(p.orders[i])
    requires p.orders[i].status == CLOSED == edited.orders[k].status
    requires edited.orders[k].total != Cents(p.orders[i].total)
    ensures !Conserved(Import(edited, branches, p).0, p.orders)
  {
    UniqueKeys(p, lower);
    ImportSucceedsIff(edited, branches, p);
    ConservedIff(edited, branches, p);
    EditedTotalIsNotDue(edited.orders[k], edited.payments, p, lower, i);
  }

  /** An edit of an order is not repaired either: with another total, a closed order that the file
      pays exactly is no longer paid as due, after any run. */
  lemma {:induction false} EditedTotalIsNotRepaired(
    db: Db, branches: Branches, p: Pack, lower: string -> string, k: nat, i: nat, total: int)
    requires Accepts(p, lower) && CleanStart(db, branches, p) && ChargesHaveOrders(branches, p)
    requires NoSquatters(db.payments, p)
    requires i < |p.orders| && p.orders[i].status == CLOSED && total != Cents(p.orders[i].total)
    requires k < |db.orders| && db.orders[k] == OrderOf(branches, p.orders[i])
    ensures Conserved(Import(db, branches, p).0, p.orders)
    ensures var edited := db.orders[k := db.orders[k].(total := total)];
            !Conserved(Import(db.(orders := edited), branches, p).0, p.orders)
  {
    CleanRunConserves(db, branches, p, lower);
    CleanStartIsReady(db, branches, p, lower);
    WithoutSquattersNothingIsLost(db.payments, p, lower);
    EditedStoreIsReady(db, branches, p.orders, k, total);
    EditedStoreFails(db.(orders := db.orders[k := db.orders[k].(total := total)]), branches, p, lower, k, i);
  }

  /** An edit that keeps id and address keeps a store addressable. */
  lemma EditedStoreIsReady(db: Db, branches: Branches, rows: seq<OrderRow>, k: nat, total: int)
    requires Ready(db, branches, rows) && k < |db.orders|
    ensures Ready(db.(orders := db.orders[k := db.orders[k].(total := total)]), branches, rows)
  {
    var edited := db.orders[k := db.orders[k].(total := total)];
    forall h, i | 0 <= h < |edited| && 0 <= i < |rows| && SameOrder(edited[h], OrderOf(branches, rows[i]))
      ensures SameAddress(edited[h], OrderOf(branches, rows[i]))
    {
      assert SameOrder(db.orders[h], OrderOf(branches, rows[i]));
    }
  }

  // ---------- Accepted packs whose rows get lost ----------

  lemma RepeatedLineIsMissing(held: seq<Item>, p: Pack, i: nat, j: nat, k: nat)
    requires i < j < |p.items| && ItemId(p.items[i]) == ItemId(p.items[j])
    requires Cents(p.items[j].charge.amount) > 0
    requires forall t :: 0 <= t < |p.items| ==> Cents(p.items[t].charge.amount) >= 0
    requires k < |p.orders| && OrderKey(p.orders[k]) == ItemKey(p.items[j])
    ensures !NoItemsMissing(held, p)
  {
    var filed := FiledItems(p);
    assert filed[..j][i].id == filed[j].id;
    LostIsMissing(ItemView, held, PackIds(p.orders), filed, j);
    assert SumUnder(OrderKey(p.orders[k]), LostItems(held, p)) > 0;
  }

  /** Line numbers are not checked: a second item on the same line of an order gets the first one's
      id and is left out. With amounts that are not negative the stored items then fall short of
      the subtotal, after every run from every clean start. */
  lemma {:induction false} RepeatedLineIsLost(
    db: Db, branches: Branches, p: Pack, lower: string -> string, i: nat, j: nat, k: nat)
    requires Accepts(p, lower) && CleanStart(db, branches, p) && ChargesHaveOrders(branches, p)
    requires i < j < |p.items| && ItemId(p.items[i]) == ItemId(p.items[j])
    requires Cents(p.items[j].charge.amount) > 0
    requires forall t :: 0 <= t < |p.items| ==> Cents(p.items[t].charge.amount) >= 0
    requires k < |p.orders| && OrderKey(p.orders[k]) == ItemKey(p.items[j])
    ensures !Itemized(Import(db, branches, p).0, p)
  {
    CleanStartSucceeds(db, branches, p, lower);
    PaymentsConserved(db, branches, p, lower);
    RepeatedLineIsMissing(db.items, p, i, j, k);
  }

  /** Such a pack passes every check: an order of two equal items, both on one line. */
  lemma {:induction false} RepeatedLineIsAccepted(
    branch: string, number: string, status: string, line: string, half: string, whole: string, lower: string -> string)
    requires status != CLOSED && Amount(half, 2).Some? && Amount(whole, 2).Some?
    requires Cents(whole) == 2 * Cents(half) >= 0
    ensures var o := OrderRow(branch, number, status, whole, "", "", whole);
            var item := ItemRow(Charge(branch, number, half), line);
            Accepts(NO_ROWS.(orders := [o], items := [item, item]), lower)
  {
    var o, item := OrderRow(branch, number, status, whole, "", "", whole), ItemRow(Charge(branch, number, half), line);
    var p, e := NO_ROWS.(orders := [o], items := [item, item]), ChargeEntry(item.charge);
    assert Map(ChargeEntry, ItemCharges(p.items)) == [e, e];
    TotalSnoc(OrderKey(o), [], e);
    TotalSnoc(OrderKey(o), [e], e);
    assert [] + [e] == [e] && [e] + [e] == [e, e];
    assert Map(FiguresOf, p.orders) == [FiguresOf(o)];
    CentsAreValues(half);
    CentsAreValues(whole);
    OneOrderAccepted(FiguresOf(o), [e, e]);
    SmallPackIsAccepted(p, lower);
  }

  /** The keys the validator checks have two colons, the ids the importer derives have one: orders
      `C` of branch `A:B` and `B:C` of branch `A` are told apart by the first and not by the
      second, so the importer stores only one of them. */
  lemma {:induction false} MergedOrdersAreStoredOnce(
    branches: Branches, a: string, b: string, c: string, status: string, lower: string -> string)
    requires status != CLOSED && a in branches && (a + [COLON] + b) in branches
    requires b != "" && b[0] != COLON
    ensures var first := OrderRow(a + [COLON] + b, c, status, "", "", "", "");
            var second := OrderRow(a, b + [COLON] + c, status, "", "", "", "");
            var p := NO_ROWS.(orders := [first, second]);
            && Accepts(p, lower)
            && Import(Db([], [], []), branches, p).0.orders == [OrderOf(branches, first)]
  {
    var first := OrderRow(a + [COLON] + b, c, status, "", "", "", "");
    var second := OrderRow(a, b + [COLON] + c, status, "", "", "", "");
    var p := NO_ROWS.(orders := [first, second]);
    var s, t := OrderKey(first), OrderKey(second);
    assert s[|a| + 1] == b[0] && t[|a| + 1] == COLON;
    BlankOrdersAreAccepted(p, lower);
    assert ColonKey(first.branch, first.number) == ColonKey(second.branch, second.number);
    var x, y := OrderOf(branches, first), OrderOf(branches, second);
    assert OrdersOf(branches, p.orders) == [x, y];
    SecondIsIgnored(x, y);
    OrdersOfAnyOutcome(Db([], [], []), branches, p);
  }

  lemma OrdersOfAnyOutcome(db: Db, branches: Branches, p: Pack)
    requires BranchesKnown(branches, p.orders)
    ensures Import(db, branches, p).0.orders == OrdersAfter(db, branches, p.orders)
  {
  }

  lemma SecondIsIgnored(x: Order, y: Order)
    requires SameOrder(x, y)
    ensures InsertIgnore(SameOrder, [], [x, y]) == [x]
  {
    assert [x, y][..1] == [x] && [x][..0] == [];
    assert InsertIgnore(SameOrder, [], [x]) == [x];
    assert SameOrder([x][0], y);
  }

  lemma BlankOrdersAreAccepted(p: Pack, lower: string -> string)
    requires p == NO_ROWS.(orders := p.orders) && Distinct(Map(OrderKey, p.orders))
    requires forall i :: 0 <= i < |p.orders| ==>
               && p.orders[i].subtotal == p.orders[i].tax == p.orders[i].discount == p.orders[i].total == ""
               && p.orders[i].status != CLOSED
    ensures Accepts(p, lower)
  {
    var files := KeyFiles(p, lower);
    forall t | 0 <= t < |files| ensures KeyFileSound(files[t]) {
      assert t == 9 || |files[t].keys| == 0;
    }
  }

  // ---------- Running again on its own result ----------

  lemma {:induction false} HardenOutside(payments: seq<Payment>, orderIds: seq<Id>)
    ensures Outside(PaymentView, Map(Harden, payments), orderIds)
         == Map(Harden, Outside(PaymentView, payments, orderIds))
  {
    if payments != [] {
      HardenOutside(payments[..|payments| - 1], orderIds);
      MapSnoc(Harden, payments);
    }
  }

  /** Whether the kept payments were hardened before or only after the insert is all the same. */
  lemma {:induction false} HardenedInsert(kept: seq<Payment>, creates: seq<Payment>)
    ensures Map(Harden, InsertIgnore(SamePayment, Map(Harden, kept), creates))
         == Map(Harden, InsertIgnore(SamePayment, kept, creates))
  {
    if creates == [] {
      assert Map(Harden, Map(Harden, kept)) == Map(Harden, kept);
    } else {
      var init, last := creates[..|creates| - 1], creates[|creates| - 1];
      HardenedInsert(kept, init);
      var a, b := InsertIgnore(SamePayment, Map(Harden, kept), init), InsertIgnore(SamePayment, kept, init);
      assert |a| == |Map(Harden, a)| == |b|;
      assert forall k :: 0 <= k < |a| ==> a[k].id == Map(Harden, a)[k].id == Map(Harden, b)[k].id == b[k].id;
      assert Map(Harden, a + [last]) == Map(Harden, a) + [Harden(last)];
      assert Map(Harden, b + [last]) == Map(Harden, b) + [Harden(last)];
    }
  }

  /** References depend on the ids of the stored payments only. */
  lemma {:induction false} RefsOfHardened(a: seq<Payment>, b: seq<Payment>, refs: map<Id, string>)
    requires Map(Harden, a) == Map(Harden, b)
    ensures RefsFound(a, refs) == RefsFound(b, refs)
  {
    assert |a| == |Map(Harden, a)| == |b|;
    if a != [] {
      var n := |a| - 1;
      MapSnoc(Harden, a);
      MapSnoc(Harden, b);
      RefsOfHardened(a[..n], b[..n], refs);
      assert a[n].id == Harden(a[n]).id == Harden(b[n]).id == b[n].id;
    }
  }

  /** Everything the step derives from the orders is the same the second time. */
  lemma OrdersAreSettled(db: Db, branches: Branches, rows: seq<OrderRow>, items: seq<Item>, payments: seq<Payment>)
    requires BranchesKnown(branches, rows)
    ensures var again := Db(OrdersAfter(db, branches, rows), items, payments);
            && OrdersAfter(again, branches, rows) == OrdersAfter(db, branches, rows)
            && Imported(again, branches, rows) == Imported(db, branches, rows)
            && Index(again, branches, rows) == Index(db, branches, rows)
  {
    InsertIsIdempotent(SameOrder, db.orders, OrdersOf(branches, rows));
  }

  /** The rows of other orders that a run leaves: as they were, payments hardened. */
  lemma OutsideAfterRun(db: Db, branches: Branches, p: Pack)
    requires Import(db, branches, p).1.None?
    ensures var after, ids := Import(db, branches, p).0, ImportedIds(db, branches, p.orders);
            && Outside(ItemView, after.items, ids) == KeptItems(db, branches, p.orders)
            && Outside(PaymentView, after.payments, ids) == Map(Harden, KeptPayments(db, branches, p.orders))
  {
    var index, ids := Index(db, branches, p.orders), ImportedIds(db, branches, p.orders);
    var items, payments := ItemsOf(index, p.items), PaymentsOf(branches, index, p.payments);
    ItemsAreMade(index, p.items);
    PaymentsAreMade(branches, index, p.payments);
    MadeForImported(ItemView, items, FiledItems(p), db, branches, p.orders);
    MadeForImported(PaymentView, payments, FiledPayments(p), db, branches, p.orders);
    OutsideTwice(ItemView, db.items, ids);
    OutsideTwice(PaymentView, db.payments, ids);
    OutsideOfInserted(ItemView, SameItem, KeptItems(db, branches, p.orders), items, ids);
    OutsideOfInserted(PaymentView, SamePayment, KeptPayments(db, branches, p.orders), payments, ids);
    HardenOutside(Written(db, branches, p), ids);
  }

  /** A run on the orders of an earlier one and on rows that leave other orders as that one left
      them ends where that one did. */
  lemma SecondRun(db: Db, branches: Branches, p: Pack, items: seq<Item>, payments: seq<Payment>)
    requires Import(db, branches, p).1.None?
    requires var ids := ImportedIds(db, branches, p.orders);
             && Outside(ItemView, items, ids) == KeptItems(db, branches, p.orders)
             && Outside(PaymentView, payments, ids) == Map(Harden, KeptPayments(db, branches, p.orders))
    ensures var after := Import(db, branches, p).0;
            Import(Db(after.orders, items, payments), branches, p) == (after, None)
  {
    var again := Db(Import(db, branches, p).0.orders, items, payments);
    OrdersAreSettled(db, branches, p.orders, items, payments);
    var creates := PaymentsOf(branches, Index(db, branches, p.orders), p.payments);
    HardenedInsert(KeptPayments(db, branches, p.orders), creates);
    RefsOfHardened(Written(again, branches, p), Written(db, branches, p), RefsById(p.payments));
  }

  /** After a run that went through, a further run restores the store exactly, whatever was done in
      between to the items and payments of the imported orders; on its own result it changes
      nothing. This holds of every store and pack. */
  lemma {:induction false} RerunRestoresSales(db: Db, branches: Branches, p: Pack, edit: Edit)
    requires Import(db, branches, p).1.None?
    requires var after, ids := Import(db, branches, p).0, ImportedIds(db, branches, p.orders);
             && Outside(ItemView, edit.items, ids) == Outside(ItemView, after.items, ids)
             && Outside(PaymentView, edit.payments, ids) == Outside(PaymentView, after.payments, ids)
    ensures var after := Import(db, branches, p).0;
            && Import(Db(after.orders, edit.items, edit.payments), branches, p) == (after, None)
            && Import(after, branches, p) == (after, None)
  {
    var after := Import(db, branches, p).0;
    OutsideAfterRun(db, branches, p);
    SecondRun(db, branches, p, edit.items, edit.payments);
    SecondRun(db, branches, p, after.items, after.payments);
  }

  // ---------- Unique keys ----------

  /** No two orders share an id, nor branch and number; no two items and no two payments share an id. */
  predicate UniqueKeysHold(db: Db) {
    && (forall i, j :: 0 <= i < j < |db.orders| ==>
          && db.orders[i].id != db.orders[j].id
          && (db.orders[i].branchId != db.orders[j].branchId || db.orders[i].number != db.orders[j].number))
    && (forall i, j :: 0 <= i < j < |db.items| ==> db.items[i].id != db.items[j].id)
    && (forall i, j :: 0 <= i < j < |db.payments| ==> db.payments[i].id != db.payments[j].id)
  }

  lemma OrdersStayUnique(db: Db, branches: Branches, p: Pack)
    requires UniqueKeysHold(db) && BranchesKnown(branches, p.orders)
    ensures NoConflicts(SameOrder, OrdersAfter(db, branches, p.orders))
  {
    InsertKeepsUniqueKeys(SameOrder, db.orders, OrdersOf(branches, p.orders));
  }

  lemma ItemsStayUnique(db: Db, branches: Branches, p: Pack)
    requires UniqueKeysHold(db) && BranchesKnown(branches, p.orders)
    ensures NoConflicts(SameItem, KeptItems(db, branches, p.orders))
    ensures ItemsResolve(Index(db, branches, p.orders), p.items) ==>
              NoConflicts(SameItem, WrittenItems(db, branches, p))
  {
    var kept := KeptItems(db, branches, p.orders);
    OutsideKeepsUniqueKeys(ItemView, SameItem, db.items, ImportedIds(db, branches, p.orders));
    if ItemsResolve(Index(db, branches, p.orders), p.items) {
      InsertKeepsUniqueKeys(SameItem, kept, ItemsOf(Index(db, branches, p.orders), p.items));
    }
  }

  lemma PaymentsStayUnique(db: Db, branches: Branches, p: Pack)
    requires UniqueKeysHold(db) && BranchesKnown(branches, p.orders)
    ensures NoConflicts(SamePayment, KeptPayments(db, branches, p.orders))
    ensures PaymentsResolve(branches, Index(db, branches, p.orders), p.payments) ==>
              && NoConflicts(SamePayment, Written(db, branches, p))
              && NoConflicts(SamePayment, Map(Harden, Written(db, branches, p)))
  {
    var kept := KeptPayments(db, branches, p.orders);
    OutsideKeepsUniqueKeys(PaymentView, SamePayment, db.payments, ImportedIds(db, branches, p.orders));
    if PaymentsResolve(branches, Index(db, branches, p.orders), p.payments) {
      InsertKeepsUniqueKeys(SamePayment, kept, PaymentsOf(branches, Index(db, branches, p.orders), p.payments));
    }
  }

  /** Safety of every run, on any pack and branches, whether it goes through or stops somewhere: no
      unique key of the three tables is ever broken. */
  lemma {:induction false} ImportKeepsUniqueKeys(db: Db, branches: Branches, p: Pack)
    requires UniqueKeysHold(db)
    ensures UniqueKeysHold(Import(db, branches, p).0)
  {
    if BranchesKnown(branches, p.orders) {
      OrdersStayUnique(db, branches, p);
      ItemsStayUnique(db, branches, p);
      PaymentsStayUnique(db, branches, p);
      var after := Import(db, branches, p).0;
      assert NoConflicts(SameOrder, after.orders) && NoConflicts(SameItem, after.items);
      assert after.payments == db.payments || NoConflicts(SamePayment, after.payments);
    }
  }

  // ---------- The hardening ----------

  lemma {:induction false} CountConcat(a: seq<Payment>, b: seq<Payment>)
    ensures CountWhere(Unhardened, a + b) == CountWhere(Unhardened, a) + CountWhere(Unhardened, b)
  {
    if b == [] {
      assert a + b == a;
    } else {
      CountConcat(a, b[..|b| - 1]);
      assert (a + b)[..|a + b| - 1] == a + b[..|b| - 1];
    }
  }

  lemma {:induction false} NothingToHarden(payments: seq<Payment>)
    requires forall p :: p in payments ==> !Unhardened(p)
    ensures CountWhere(Unhardened, payments) == 0
  {
    if payments != [] {
      NothingToHarden(payments[..|payments| - 1]);
      assert payments[|payments| - 1] in payments;
    }
  }

  lemma {:induction false} InsertHardCount(kept: seq<Payment>, creates: seq<Payment>)
    requires forall p :: p in creates ==> !Unhardened(p)
    ensures CountWhere(Unhardened, InsertIgnore(SamePayment, kept, creates)) == CountWhere(Unhardened, kept)
  {
    if creates != [] {
      var init, last := creates[..|creates| - 1], creates[|creates| - 1];
      InsertHardCount(kept, init);
      assert last in creates;
      CountConcat(InsertIgnore(SamePayment, kept, init), [last]);
      NothingToHarden([last]);
    }
  }

  lemma CreatesNeedNoHardening(branches: Branches, index: map<string, Id>, rows: seq<PaymentRow>)
    requires PaymentsResolve(branches, index, rows) && PaymentsSafe(rows)
    ensures forall c :: c in PaymentsOf(branches, index, rows) ==> !Unhardened(c)
  {
    var creates := PaymentsOf(branches, index, rows);
    forall c | c in creates ensures !Unhardened(c) {
      var i :| 0 <= i < |creates| && creates[i] == c;
      assert PaymentResolves(branches, index, rows[i]);
      assert MobileMoneySafe(rows[i]);
    }
  }

  lemma HardenedNeedsNone(payments: seq<Payment>)
    ensures CountWhere(Unhardened, Map(Harden, payments)) == 0
  {
    var after := Map(Harden, payments);
    forall q | q in after ensures !Unhardened(q) {
      var i :| 0 <= i < |after| && after[i] == q;
    }
    NothingToHarden(after);
  }

  /** The hardening never changes a payment of an accepted pack, on any store: the rows it counts
      were all there before, for other orders. Afterwards none is left to harden. */
  lemma {:induction false} HardeningOnlyTouchesOthers(db: Db, branches: Branches, p: Pack, lower: string -> string)
    requires Accepts(p, lower) && Import(db, branches, p).1.None?
    ensures CountWhere(Unhardened, Written(db, branches, p))
         == CountWhere(Unhardened, KeptPayments(db, branches, p.orders))
    ensures CountWhere(Unhardened, Import(db, branches, p).0.payments) == 0
  {
    var index := Index(db, branches, p.orders);
    CreatesNeedNoHardening(branches, index, p.payments);
    InsertHardCount(KeptPayments(db, branches, p.orders), PaymentsOf(branches, index, p.payments));
    HardenedNeedsNone(Written(db, branches, p));
  }
}
