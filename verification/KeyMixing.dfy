/** When the running totals of the validator are right: exactly when no order's key collects the
    charges of another order. */
module KeyMixing {
  import opened Prelude
  import opened Keys
  import opened Money
  import opened Validator
  import opened ValidatorLaws

  /** The same charges with other amounts. */
  predicate SamePlaces(a: seq<Charge>, b: seq<Charge>) {
    && |a| == |b|
    && forall i :: 0 <= i < |a| ==> a[i].branch == b[i].branch && a[i].number == b[i].number
  }

  const UNIT := "1"

  lemma UnitAmount()
    ensures Amount(UNIT, 2) == Some(100) && Amount("", 2) == Some(0)
  {
    assert UNIT[..1] == UNIT && NatValue(UNIT) == 10 * NatValue(UNIT[..0]) + 1;
    assert Shift(1, 2) == 10 * Shift(1, 1) && Shift(1, 1) == 10 * Shift(1, 0);
  }

  /** The charges with one unit on the one at j and nothing on the others. */
  function OnlyAt(charges: seq<Charge>, j: int): (cs: seq<Charge>)
    ensures SamePlaces(charges, cs)
  {
    seq(|charges|, i requires 0 <= i < |charges| => charges[i].(amount := if i == j then UNIT else ""))
  }

  lemma {:induction false} SingleTotal<K>(key: K, entries: seq<Entry<K>>, j: int)
    requires forall i :: 0 <= i < |entries| && i != j ==> Value(entries[i].cents) == 0
    ensures Total(key, entries) ==
              if 0 <= j < |entries| && entries[j].key == key then Value(entries[j].cents) else 0
  {
    if entries != [] {
      SingleTotal(key, entries[..|entries| - 1], j);
    }
  }

  /** What one unit at j adds under a key, and to an order. */
  lemma TotalsOfOne(branch: string, number: string, charges: seq<Charge>, j: int)
    ensures EntriesParse(Map(ChargeEntry, OnlyAt(charges, j)))
    ensures Total(PairKey(branch, number), Map(ChargeEntry, OnlyAt(charges, j))) ==
              if 0 <= j < |charges| && PairKey(charges[j].branch, charges[j].number) == PairKey(branch, number)
              then 100 else 0
    ensures ChargedTo(branch, number, OnlyAt(charges, j)) ==
              if 0 <= j < |charges| && charges[j].branch == branch && charges[j].number == number then 100 else 0
  {
    UnitAmount();
    SingleTotal(PairKey(branch, number), Map(ChargeEntry, OnlyAt(charges, j)), j);
    SingleTotal((branch, number), Map(ByOrder, OnlyAt(charges, j)), j);
  }

  /** Summing under the joined key is summing over the order, whatever the amounts, exactly when
      the key does not mix. */
  lemma {:induction false} KeyedSumsRightIff(branch: string, number: string, charges: seq<Charge>)
    ensures (forall cs | SamePlaces(charges, cs) ::
               Total(PairKey(branch, number), Map(ChargeEntry, cs)) == ChargedTo(branch, number, cs))
       <==> NoMixing(branch, number, charges)
  {
    if NoMixing(branch, number, charges) {
      forall cs | SamePlaces(charges, cs)
        ensures Total(PairKey(branch, number), Map(ChargeEntry, cs)) == ChargedTo(branch, number, cs)
      {
        KeyedSumIsOrderSum(branch, number, cs);
      }
    } else {
      var j :| 0 <= j < |charges| && PairKey(charges[j].branch, charges[j].number) == PairKey(branch, number)
               && !(charges[j].branch == branch && charges[j].number == number);
      TotalsOfOne(branch, number, charges, j);
      assert SamePlaces(charges, OnlyAt(charges, j));
    }
  }

  // ---------- The verdict on a pack ----------

  predicate SameOrderPlaces(a: seq<OrderRow>, b: seq<OrderRow>) {
    && |a| == |b|
    && forall i :: 0 <= i < |a| ==> a[i].branch == b[i].branch && a[i].number == b[i].number
  }

  /** The same orders and charges with other amounts. */
  predicate Repriced(p: Pack, q: Pack) {
    && SameOrderPlaces(p.orders, q.orders)
    && SamePlaces(ItemCharges(p.items), ItemCharges(q.items)) && SamePlaces(p.modifiers, q.modifiers)
    && SamePlaces(Map(ChargeOf, p.payments), Map(ChargeOf, q.payments))
  }

  predicate VerdictRight(p: Pack) {
    SalesAccepted(Map(FiguresOf, p.orders), Map(ChargeEntry, ItemCharges(p.items)),
                  Map(ChargeEntry, p.modifiers), Map(PaymentEntry, p.payments))
    <==> SalesReadable(p) && AllOrdersSound(p)
  }

  lemma RepricedIsUnmixed(p: Pack, q: Pack)
    requires OrdersUnmixed(p) && Repriced(p, q)
    ensures OrdersUnmixed(q)
  {
    forall i | 0 <= i < |q.orders|
      ensures NoMixing(q.orders[i].branch, q.orders[i].number, ItemCharges(q.items))
      ensures NoMixing(q.orders[i].branch, q.orders[i].number, q.modifiers)
      ensures NoMixing(q.orders[i].branch, q.orders[i].number, Map(ChargeOf, q.payments))
    {
      assert p.orders[i].branch == q.orders[i].branch && p.orders[i].number == q.orders[i].number;
    }
  }

  function Unpriced(o: OrderRow): OrderRow {
    o.(subtotal := "", tax := "", discount := "", total := "")
  }

  function OnlyItemAt(items: seq<ItemRow>, j: int): (rs: seq<ItemRow>)
    ensures ItemCharges(rs) == OnlyAt(ItemCharges(items), j)
  {
    seq(|items|, i requires 0 <= i < |items| =>
      items[i].(charge := items[i].charge.(amount := if i == j then UNIT else "")))
  }

  function OnlyPaidAt(payments: seq<PaymentRow>, j: int): (ps: seq<PaymentRow>)
    ensures Map(ChargeOf, ps) == OnlyAt(Map(ChargeOf, payments), j)
  {
    seq(|payments|, i requires 0 <= i < |payments| =>
      payments[i].(charge := payments[i].charge.(amount := if i == j then UNIT else "")))
  }

  /** The pack with nothing on its orders and at most one unit on an item, a modifier or a payment. */
  function OneUnit(p: Pack, item: int, modifier: int, payment: int): (q: Pack)
    ensures Repriced(p, q)
  {
    p.(orders := Map(Unpriced, p.orders), items := OnlyItemAt(p.items, item),
       modifiers := OnlyAt(p.modifiers, modifier), payments := OnlyPaidAt(p.payments, payment))
  }

  /** The charge at j is one under the order's key that is for another order. */
  predicate MixedAt(o: OrderRow, charges: seq<Charge>, j: int) {
    && 0 <= j < |charges| && PairKey(charges[j].branch, charges[j].number) == OrderKey(o)
    && !(charges[j].branch == o.branch && charges[j].number == o.number)
  }

  lemma MixedCharge(o: OrderRow, charges: seq<Charge>) returns (j: int)
    ensures j == -1 <==> NoMixing(o.branch, o.number, charges)
    ensures j != -1 ==> MixedAt(o, charges, j)
  {
    j := -1;
    if !NoMixing(o.branch, o.number, charges) {
      j :| 0 <= j < |charges| && PairKey(charges[j].branch, charges[j].number) == PairKey(o.branch, o.number)
           && !(charges[j].branch == o.branch && charges[j].number == o.number);
    }
  }

  /** The figures of an order without amounts, in the pack with one unit. */
  lemma UnpricedOrder(p: Pack, i: nat, item: int, modifier: int, payment: int)
    requires i < |p.orders|
    ensures var q := OneUnit(p, item, modifier, payment);
            var o := q.orders[i];
            && OrderParses(FiguresOf(o)) && Cents(o.subtotal) == 0 && Cents(o.tax) == 0
            && Cents(o.discount) == 0 && Cents(o.total) == 0
  {
    UnitAmount();
  }

  lemma OneUnitReadable(p: Pack, item: int, modifier: int, payment: int)
    ensures SalesReadable(OneUnit(p, item, modifier, payment))
  {
    var q := OneUnit(p, item, modifier, payment);
    TotalsOfOne("", "", ItemCharges(p.items), item);
    TotalsOfOne("", "", p.modifiers, modifier);
    TotalsOfOne("", "", Map(ChargeOf, p.payments), payment);
    PaymentEntriesAreCharges(q.payments);
    forall i | 0 <= i < |q.orders| ensures OrderParses(Map(FiguresOf, q.orders)[i]) {
      UnpricedOrder(p, i, item, modifier, payment);
    }
  }

  /** With distinct keys, a mixed charge is for no order of the pack at all. */
  lemma MixedChargeHasNoOrder(p: Pack, o: OrderRow, charges: seq<Charge>, j: int, k: nat)
    requires Distinct(Map(OrderKey, p.orders)) && o in p.orders && MixedAt(o, charges, j) && k < |p.orders|
    ensures !(charges[j].branch == p.orders[k].branch && charges[j].number == p.orders[k].number)
  {
    var i :| 0 <= i < |p.orders| && p.orders[i] == o;
    assert Map(OrderKey, p.orders)[i] == OrderKey(o) && Map(OrderKey, p.orders)[k] == OrderKey(p.orders[k]);
  }

  /** At most one unit on charges that are all mixed into the order. */
  predicate MixedUnits(p: Pack, o: OrderRow, item: int, modifier: int, payment: int) {
    && (item != -1 ==> MixedAt(o, ItemCharges(p.items), item))
    && (modifier != -1 ==> MixedAt(o, p.modifiers, modifier))
    && (payment != -1 ==> MixedAt(o, Map(ChargeOf, p.payments), payment))
  }

  /** No order of the pack is charged or paid anything, so all are sound. */
  lemma MixedUnitIsNoOrders(p: Pack, o: OrderRow, item: int, modifier: int, payment: int, k: nat)
    requires Distinct(Map(OrderKey, p.orders)) && o in p.orders && k < |p.orders|
    requires MixedUnits(p, o, item, modifier, payment)
    ensures var q := OneUnit(p, item, modifier, payment); OrderSound(q, q.orders[k])
  {
    UnpricedOrder(p, k, item, modifier, payment);
    var b, n := p.orders[k].branch, p.orders[k].number;
    TotalsOfOne(b, n, ItemCharges(p.items), item);
    TotalsOfOne(b, n, p.modifiers, modifier);
    TotalsOfOne(b, n, Map(ChargeOf, p.payments), payment);
    if item != -1 { MixedChargeHasNoOrder(p, o, ItemCharges(p.items), item, k); }
    if modifier != -1 { MixedChargeHasNoOrder(p, o, p.modifiers, modifier, k); }
    if payment != -1 { MixedChargeHasNoOrder(p, o, Map(ChargeOf, p.payments), payment, k); }
  }

  /** But under the order's key there is something, so the checks fail. */
  lemma MixedUnitIsCounted(p: Pack, o: OrderRow, item: int, modifier: int, payment: int)
    requires o in p.orders && MixedUnits(p, o, item, modifier, payment)
    requires item != -1 || modifier != -1 || payment != -1
    ensures var q := OneUnit(p, item, modifier, payment);
            !SalesAccepted(Map(FiguresOf, q.orders), Map(ChargeEntry, ItemCharges(q.items)),
                           Map(ChargeEntry, q.modifiers), Map(PaymentEntry, q.payments))
  {
    var q := OneUnit(p, item, modifier, payment);
    PaymentEntriesAreCharges(q.payments);
    var i :| 0 <= i < |p.orders| && p.orders[i] == o;
    UnpricedOrder(p, i, item, modifier, payment);
    TotalsOfOne(o.branch, o.number, ItemCharges(p.items), item);
    TotalsOfOne(o.branch, o.number, p.modifiers, modifier);
    TotalsOfOne(o.branch, o.number, Map(ChargeOf, p.payments), payment);
    var f := Map(FiguresOf, q.orders)[i];
    assert f.key == PairKey(o.branch, o.number);
    SomethingIsCounted(f, Total(f.key, Map(ChargeEntry, ItemCharges(q.items))),
                       Total(f.key, Map(ChargeEntry, q.modifiers)), Total(f.key, Map(PaymentEntry, q.payments)));
  }

  lemma SomethingIsCounted(f: OrderFigures, items: int, modifiers: int, payments: int)
    requires Value(f.subtotal) == Value(f.total) == 0
    requires items >= 0 && modifiers >= 0 && payments >= 0 && items + modifiers + payments > 0
    ensures !ChargesAddUp(f, items + modifiers) || !PaymentsAddUp(f, payments)
  {
  }

  lemma MixedUnitIsMisjudged(p: Pack, o: OrderRow, item: int, modifier: int, payment: int)
    requires Distinct(Map(OrderKey, p.orders)) && o in p.orders
    requires MixedUnits(p, o, item, modifier, payment)
    requires item != -1 || modifier != -1 || payment != -1
    ensures !VerdictRight(OneUnit(p, item, modifier, payment))
  {
    var q := OneUnit(p, item, modifier, payment);
    OneUnitReadable(p, item, modifier, payment);
    MixedUnitIsCounted(p, o, item, modifier, payment);
    forall k | 0 <= k < |q.orders| ensures OrderSound(q, q.orders[k]) {
      MixedUnitIsNoOrders(p, o, item, modifier, payment, k);
    }
  }

  /** The verdict is right on the pack's orders and charges at all amounts exactly when no order's
      key collects the charge of another order. */
  lemma {:induction false} VerdictRightIff(p: Pack)
    requires Distinct(Map(OrderKey, p.orders))
    ensures (forall q | Repriced(p, q) :: VerdictRight(q)) <==> OrdersUnmixed(p)
  {
    if OrdersUnmixed(p) {
      forall q | Repriced(p, q) ensures VerdictRight(q) {
        RepricedIsUnmixed(p, q);
        SalesAcceptedIffOrdersSound(q);
      }
    } else {
      var i :| 0 <= i < |p.orders|
        && !(&& NoMixing(p.orders[i].branch, p.orders[i].number, ItemCharges(p.items))
             && NoMixing(p.orders[i].branch, p.orders[i].number, p.modifiers)
             && NoMixing(p.orders[i].branch, p.orders[i].number, Map(ChargeOf, p.payments)));
      var o := p.orders[i];
      var item := MixedCharge(o, ItemCharges(p.items));
      var modifier := MixedCharge(o, p.modifiers);
      var payment := MixedCharge(o, Map(ChargeOf, p.payments));
      MixedUnitIsMisjudged(p, o, item, modifier, payment);
    }
  }

  /** A pack that passes every check although its only order has no item: the item is for another
      order, of a branch whose code holds the separator. */
  lemma {:induction false} WronglyAcceptedPack(
    branch: string, a: string, b: string, line: string, status: string, lower: string -> string)
    requires status != CLOSED
    ensures var o := OrderRow(branch, a + SEPARATOR + b, status, UNIT, "", "", UNIT);
            var p := NO_ROWS.(orders := [o], items := [ItemRow(Charge(branch + SEPARATOR + a, b, UNIT), line)]);
            Accepts(p, lower) && !OrderSound(p, o)
  {
    var o := OrderRow(branch, a + SEPARATOR + b, status, UNIT, "", "", UNIT);
    var c := Charge(branch + SEPARATOR + a, b, UNIT);
    var p := NO_ROWS.(orders := [o], items := [ItemRow(c, line)]);
    UnitAmount();
    assert PairKey(c.branch, c.number) == OrderKey(o);
    assert ItemCharges(p.items) == [c] == OnlyAt([c], 0);
    TotalsOfOne(branch, o.number, [c], 0);
    OneOrderAccepted(FiguresOf(o), Map(ChargeEntry, [c]));
    assert Map(FiguresOf, [o]) == [FiguresOf(o)];
    SmallPackIsAccepted(p, lower);
    assert |c.branch| != |branch|;
  }
}
