/** The older dry-run checker, and exactly which packs that pass the validator pass it too. */
module Scaffold {
  import opened Prelude
  import opened Keys
  import opened Money
  import opened Validator
  import opened ValidatorLaws
  import opened PackMeaning

  function LooseBranchKey(b: BranchRow): string {
    ColonKey(b.org, b.code)
  }

  function LooseOrderKey(o: OrderRow): string {
    ColonKey(o.branch, o.number)
  }

  function LooseItem(c: Charge): Entry<string> {
    Entry(ColonKey(c.branch, c.number), StrictAmount(c.amount))
  }

  function LooseSubtotal(o: OrderRow): Entry<string> {
    Entry(LooseOrderKey(o), StrictAmount(o.subtotal))
  }

  function LoosePosting(l: JournalLineRow): Entry<(string, string)> {
    Entry((l.journal, l.direction), StrictAmount(l.amount))
  }

  /** Within one cent. */
  predicate Near(a: int, b: int) {
    -1 <= a - b <= 1
  }

  predicate SubtotalNear(order: Entry<string>, items: seq<Entry<string>>) {
    order.cents.Some? && Near(Total(order.key, items), order.cents.value)
  }

  predicate SubtotalsNear(orders: seq<Entry<string>>, items: seq<Entry<string>>) {
    forall i :: 0 <= i < |orders| ==> SubtotalNear(orders[i], items)
  }

  /** Only the amounts of debit and credit lines are ever read. */
  predicate SidesReadable(lines: seq<Entry<(string, string)>>) {
    forall i :: 0 <= i < |lines| ==>
      (lines[i].key.1 == DEBIT || lines[i].key.1 == CREDIT ==> lines[i].cents.Some?)
  }

  predicate JournalNear(number: string, lines: seq<Entry<(string, string)>>) {
    Near(Total((number, DEBIT), lines), Total((number, CREDIT), lines))
  }

  predicate JournalsNear(lines: seq<Entry<(string, string)>>) {
    forall i :: 0 <= i < |lines| ==> JournalNear(lines[i].key.0, lines)
  }

  predicate LooselyUnique(p: Pack) {
    && Distinct(p.orgs) && Distinct(Map(LooseBranchKey, p.branches))
    && Distinct(p.users) && Distinct(Map(LooseOrderKey, p.orders))
  }

  predicate LooselyAccepts(p: Pack) {
    && LooselyUnique(p)
    && EntriesParse(Map(LooseItem, ItemCharges(p.items)))
    && SubtotalsNear(Map(LooseSubtotal, p.orders), Map(LooseItem, ItemCharges(p.items)))
    && SidesReadable(Map(LoosePosting, p.journalLines)) && JournalsNear(Map(LoosePosting, p.journalLines))
  }

  // ---------- The checker ----------

  method CheckSubtotals(orders: seq<Entry<string>>, items: seq<Entry<string>>) returns (ok: bool)
    ensures ok <==> EntriesParse(items) && SubtotalsNear(orders, items)
  {
    var totals := Accumulate(map[], items);
    if totals.Err? {
      return false;
    }
    for i := 0 to |orders|
      invariant forall j :: 0 <= j < i ==> SubtotalNear(orders[j], items)
    {
      if orders[i].cents.None? || !Near(Lookup(totals.value, orders[i].key), orders[i].cents.value) {
        return false;
      }
    }
    return true;
  }

  method TallyLoosely(lines: seq<Entry<(string, string)>>)
    returns (ok: bool, totals: map<string, Sides>, numbers: seq<string>)
    ensures ok <==> SidesReadable(lines)
    ensures ok ==> numbers == JournalsIn(lines)
    ensures ok ==> forall n :: SidesIn(totals, n) == SidesOf(n, lines)
  {
    totals, numbers := map[], [];
    for i := 0 to |lines|
      invariant SidesReadable(lines[..i])
      invariant numbers == JournalsIn(lines[..i])
      invariant forall n :: n in totals <==> n in numbers
      invariant forall n :: SidesIn(totals, n) == SidesOf(n, lines[..i])
    {
      var l := lines[i];
      var journal, direction := l.key.0, l.key.1;
      assert lines[..i + 1][..i] == lines[..i];
      var rec := SidesIn(totals, journal);
      if (direction == DEBIT || direction == CREDIT) && l.cents.None? {
        return false, totals, numbers;
      }
      if direction == DEBIT {
        rec := rec.(debit := rec.debit + l.cents.value);
      }
      if direction == CREDIT {
        rec := rec.(credit := rec.credit + l.cents.value);
      }
      if journal !in totals {
        numbers := numbers + [journal];
      }
      TallyNext(totals, totals[journal := rec], lines, i);
      totals := totals[journal := rec];
    }
    assert lines[..|lines|] == lines;
    ok := true;
  }

  method CheckJournalsLoosely(lines: seq<Entry<(string, string)>>) returns (ok: bool)
    ensures ok <==> SidesReadable(lines) && JournalsNear(lines)
  {
    var readable, totals, numbers := TallyLoosely(lines);
    if !readable {
      return false;
    }
    JournalsInExactly(lines);
    for k := 0 to |numbers|
      invariant forall j :: 0 <= j < k ==> JournalNear(numbers[j], lines)
    {
      var rec := SidesIn(totals, numbers[k]);
      assert numbers[k] in numbers;
      if !Near(rec.debit, rec.credit) {
        return false;
      }
    }
    return true;
  }

  method DryRun(p: Pack) returns (ok: bool)
    ensures ok <==> LooselyAccepts(p)
  {
    var duplicate := AssertUnique(p.orgs);
    if duplicate.Some? { return false; }
    duplicate := AssertUnique(Map(LooseBranchKey, p.branches));
    if duplicate.Some? { return false; }
    duplicate := AssertUnique(p.users);
    if duplicate.Some? { return false; }
    duplicate := AssertUnique(Map(LooseOrderKey, p.orders));
    if duplicate.Some? { return false; }
    ok := CheckSubtotals(Map(LooseSubtotal, p.orders), Map(LooseItem, ItemCharges(p.items)));
    if !ok { return; }
    ok := CheckJournalsLoosely(Map(LoosePosting, p.journalLines));
  }

  // ---------- Strict against loose ----------

  predicate OrganizationsClean(p: Pack) {
    forall i :: 0 <= i < |p.branches| ==> COLON !in p.branches[i].org
  }

  /** No amount the older checker reads is blank; the validator reads blank as zero. */
  predicate NoBlankAmounts(p: Pack) {
    && (forall i :: 0 <= i < |p.items| ==> p.items[i].charge.amount != "")
    && (forall i :: 0 <= i < |p.orders| ==> p.orders[i].subtotal != "")
    && (forall i :: 0 <= i < |p.journalLines| ==> p.journalLines[i].amount != "")
  }

  /** The older checker leaves modifiers out, so it allows one cent of them per order. */
  predicate ModifiersNegligible(p: Pack) {
    forall i :: 0 <= i < |p.orders| ==>
      -1 <= ChargedTo(p.orders[i].branch, p.orders[i].number, p.modifiers) <= 1
  }

  lemma StrictAmountIsAmount(s: string)
    ensures StrictAmount(s) == if s == "" then None else Amount(s, 2)
  {
  }

  lemma {:induction false} ColonSumIsOrderSum(branch: string, number: string, charges: seq<Charge>)
    requires COLON !in branch && forall i :: 0 <= i < |charges| ==> COLON !in charges[i].branch
    requires forall i :: 0 <= i < |charges| ==> charges[i].amount != ""
    ensures Total(ColonKey(branch, number), Map(LooseItem, charges)) == ChargedTo(branch, number, charges)
  {
    if charges != [] {
      var last := charges[|charges| - 1];
      ColonSumIsOrderSum(branch, number, charges[..|charges| - 1]);
      MapSnoc(LooseItem, charges);
      MapSnoc(ByOrder, charges);
      StrictAmountIsAmount(last.amount);
      if ColonKey(last.branch, last.number) == ColonKey(branch, number) {
        CutAtSeparator(last.branch, last.number, branch, number, [COLON]);
      }
    }
  }

  lemma LooseKeysAreUnique(p: Pack, lower: string -> string)
    requires KeysUnique(p, lower) && BranchCodesClean(p) && OrganizationsClean(p)
    ensures LooselyUnique(p)
  {
    UniqueKeys(p, lower);
    forall i, j | 0 <= i < j < |p.branches| ensures LooseBranchKey(p.branches[i]) != LooseBranchKey(p.branches[j]) {
      var a, b := p.branches[i], p.branches[j];
      assert Map(BranchKey, p.branches)[i] != Map(BranchKey, p.branches)[j];
      if LooseBranchKey(a) == LooseBranchKey(b) {
        CutAtSeparator(a.org, a.code, b.org, b.code, [COLON]);
      }
    }
    forall i, j | 0 <= i < j < |p.orders| ensures LooseOrderKey(p.orders[i]) != LooseOrderKey(p.orders[j]) {
      var a, b := p.orders[i], p.orders[j];
      assert Map(OrderKey, p.orders)[i] != Map(OrderKey, p.orders)[j];
      if LooseOrderKey(a) == LooseOrderKey(b) {
        CutAtSeparator(a.branch, a.number, b.branch, b.number, [COLON]);
      }
    }
    forall i, j | 0 <= i < j < |p.users| ensures p.users[i] != p.users[j] {
      assert Map(lower, p.users)[i] != Map(lower, p.users)[j];
    }
  }

  lemma ItemsReadable(p: Pack)
    requires EntriesParse(Map(ChargeEntry, ItemCharges(p.items)))
    ensures EntriesParse(Map(LooseItem, ItemCharges(p.items))) <==>
              forall i :: 0 <= i < |p.items| ==> p.items[i].charge.amount != ""
  {
    forall i | 0 <= i < |p.items|
      ensures Map(LooseItem, ItemCharges(p.items))[i].cents.Some? <==> p.items[i].charge.amount != ""
    {
      StrictAmountIsAmount(p.items[i].charge.amount);
      assert Map(ChargeEntry, ItemCharges(p.items))[i].cents.Some?;
    }
  }

  lemma OneSubtotal(p: Pack, o: OrderRow)
    requires BranchCodesClean(p) && COLON !in o.branch
    requires Amount(o.subtotal, 2).Some? && OrderSound(p, o)
    requires forall i :: 0 <= i < |p.items| ==> p.items[i].charge.amount != ""
    ensures SubtotalNear(LooseSubtotal(o), Map(LooseItem, ItemCharges(p.items))) <==>
              o.subtotal != "" && -1 <= ChargedTo(o.branch, o.number, p.modifiers) <= 1
  {
    ColonSumIsOrderSum(o.branch, o.number, ItemCharges(p.items));
    StrictAmountIsAmount(o.subtotal);
    CentsAreValues(o.subtotal);
  }

  lemma SubtotalsLoose(p: Pack)
    requires BranchCodesClean(p) && SalesReadable(p) && AllOrdersSound(p)
    requires forall i :: 0 <= i < |p.items| ==> p.items[i].charge.amount != ""
    ensures SubtotalsNear(Map(LooseSubtotal, p.orders), Map(LooseItem, ItemCharges(p.items))) <==>
              ModifiersNegligible(p) && forall i :: 0 <= i < |p.orders| ==> p.orders[i].subtotal != ""
  {
    forall i | 0 <= i < |p.orders|
      ensures SubtotalNear(Map(LooseSubtotal, p.orders)[i], Map(LooseItem, ItemCharges(p.items))) <==>
                p.orders[i].subtotal != ""
                && -1 <= ChargedTo(p.orders[i].branch, p.orders[i].number, p.modifiers) <= 1
    {
      assert OrderParses(Map(FiguresOf, p.orders)[i]);
      OneSubtotal(p, p.orders[i]);
    }
  }

  lemma NonBlankPostingsAreSame(lines: seq<JournalLineRow>)
    requires forall i :: 0 <= i < |lines| ==> lines[i].amount != ""
    ensures Map(LoosePosting, lines) == Map(Posting, lines)
  {
    forall i | 0 <= i < |lines| ensures LoosePosting(lines[i]) == Posting(lines[i]) {
      StrictAmountIsAmount(lines[i].amount);
    }
  }

  lemma JournalsLoose(lines: seq<JournalLineRow>)
    requires LedgerAccepted(Map(Posting, lines))
    ensures SidesReadable(Map(LoosePosting, lines)) && JournalsNear(Map(LoosePosting, lines)) <==>
              forall i :: 0 <= i < |lines| ==> lines[i].amount != ""
  {
    if SidesReadable(Map(LoosePosting, lines)) {
      forall i | 0 <= i < |lines| ensures lines[i].amount != "" {
        assert LineIsReadable(Map(Posting, lines)[i]);
        StrictAmountIsAmount(lines[i].amount);
        assert Map(LoosePosting, lines)[i].cents.Some?;
      }
    }
    if forall i :: 0 <= i < |lines| ==> lines[i].amount != "" {
      NonBlankPostingsAreSame(lines);
      LedgerIsLoose(Map(Posting, lines));
    }
  }

  lemma LedgerIsLoose(lines: seq<Entry<(string, string)>>)
    requires LedgerAccepted(lines)
    ensures SidesReadable(lines) && JournalsNear(lines)
  {
    forall i | 0 <= i < |lines| ensures JournalNear(lines[i].key.0, lines) {
      assert Balances(lines[i].key.0, lines);
    }
    assert forall i :: 0 <= i < |lines| ==> LineIsReadable(lines[i]);
  }

  /** A pack the validator accepts, with colon-free branch and organization codes, passes the
      older checker exactly when none of the amounts that one reads is blank and no order's
      modifiers come to more than a cent. */
  lemma {:induction false} StrictPassesLooseIff(p: Pack, lower: string -> string)
    requires Accepts(p, lower) && BranchCodesClean(p) && OrganizationsClean(p)
    ensures LooselyAccepts(p) <==> NoBlankAmounts(p) && ModifiersNegligible(p)
  {
    CleanPacksAreUnmixed(p);
    SalesAcceptedIffOrdersSound(p);
    LooseKeysAreUnique(p, lower);
    ItemsReadable(p);
    if forall i :: 0 <= i < |p.items| ==> p.items[i].charge.amount != "" {
      SubtotalsLoose(p);
    }
    JournalsLoose(p.journalLines);
  }

  /** In particular: without modifier rows and blank amounts, strict implies loose. */
  lemma {:induction false} StrictImpliesLoose(p: Pack, lower: string -> string)
    requires Accepts(p, lower) && BranchCodesClean(p) && OrganizationsClean(p)
    requires p.modifiers == [] && NoBlankAmounts(p)
    ensures LooselyAccepts(p)
  {
    StrictPassesLooseIff(p, lower);
  }

  // ---------- The older checker in the terms of its files ----------

  /** An amount as the older checker requires it: readable and not blank. */
  predicate FilledIn(s: string) {
    s != "" && Amount(s, 2).Some?
  }

  /** The four files hold distinct rows; items and subtotals are filled in, and so are the amounts
      of debits and credits; the items of each order come within a cent of its subtotal, and the
      debits of each journal within a cent of its credits. Modifiers, totals and payments are not
      looked at. */
  predicate LooselySound(p: Pack) {
    && Distinct(p.orgs) && Distinct(p.branches) && Distinct(p.users)
    && Distinct(Map((o: OrderRow) => (o.branch, o.number), p.orders))
    && (forall i :: 0 <= i < |p.items| ==> FilledIn(p.items[i].charge.amount))
    && (forall i :: 0 <= i < |p.orders| ==> SubtotalSound(p.orders[i], p.items))
    && (forall i :: 0 <= i < |p.journalLines| ==> LineSound(p.journalLines[i], p.journalLines))
  }

  predicate SubtotalSound(o: OrderRow, items: seq<ItemRow>) {
    FilledIn(o.subtotal) && -1 <= ItemsTotal(o, items) - Cents(o.subtotal) <= 1
  }

  predicate LineSound(l: JournalLineRow, lines: seq<JournalLineRow>) {
    && (l.direction == "DEBIT" || l.direction == "CREDIT" ==> FilledIn(l.amount))
    && -1 <= SideTotal(l.journal, "DEBIT", lines) - SideTotal(l.journal, "CREDIT", lines) <= 1
  }

  lemma ColonKeysAgree(a: string, x: string, b: string, y: string)
    requires COLON !in a && COLON !in b
    ensures ColonKey(a, x) == ColonKey(b, y) <==> a == b && x == y
  {
    if ColonKey(a, x) == ColonKey(b, y) {
      CutAtSeparator(a, x, b, y, [COLON]);
    }
  }

  lemma LooselyUniqueIff(p: Pack)
    requires BranchCodesClean(p) && OrganizationsClean(p)
    ensures LooselyUnique(p) <==>
              && Distinct(p.orgs) && Distinct(p.branches) && Distinct(p.users)
              && Distinct(Map((o: OrderRow) => (o.branch, o.number), p.orders))
  {
    forall i, j | 0 <= i < j < |p.branches|
      ensures LooseBranchKey(p.branches[i]) == LooseBranchKey(p.branches[j]) <==> p.branches[i] == p.branches[j]
    {
      ColonKeysAgree(p.branches[i].org, p.branches[i].code, p.branches[j].org, p.branches[j].code);
    }
    SameDistinctness(LooseBranchKey, (b: BranchRow) => b, p.branches);
    MapOfItself(p.branches);
    forall i, j | 0 <= i < j < |p.orders|
      ensures LooseOrderKey(p.orders[i]) == LooseOrderKey(p.orders[j]) <==>
                (p.orders[i].branch, p.orders[i].number) == (p.orders[j].branch, p.orders[j].number)
    {
      ColonKeysAgree(p.orders[i].branch, p.orders[i].number, p.orders[j].branch, p.orders[j].number);
    }
    SameDistinctness(LooseOrderKey, (o: OrderRow) => (o.branch, o.number), p.orders);
  }

  lemma LooseItemsParseIff(items: seq<ItemRow>)
    ensures EntriesParse(Map(LooseItem, ItemCharges(items))) <==>
              forall i :: 0 <= i < |items| ==> FilledIn(items[i].charge.amount)
  {
    forall i | 0 <= i < |items|
      ensures Map(LooseItem, ItemCharges(items))[i].cents.Some? <==> FilledIn(items[i].charge.amount)
    {
    }
  }

  lemma SubtotalNearIff(p: Pack, i: nat)
    requires BranchCodesClean(p) && i < |p.orders|
    requires forall i :: 0 <= i < |p.items| ==> FilledIn(p.items[i].charge.amount)
    ensures SubtotalNear(LooseSubtotal(p.orders[i]), Map(LooseItem, ItemCharges(p.items))) <==>
              SubtotalSound(p.orders[i], p.items)
  {
    var o := p.orders[i];
    ColonSumIsOrderSum(o.branch, o.number, ItemCharges(p.items));
    ItemsTotalOfCharges(o, p.items);
  }

  lemma LooseSideIs(number: string, direction: string, lines: seq<JournalLineRow>)
    requires direction == DEBIT || direction == CREDIT
    ensures Total((number, direction), Map(LoosePosting, lines)) == SideTotal(number, direction, lines)
  {
    KeyedSumIsFilter(LoosePosting, (number, direction),
                     (l: JournalLineRow) => l.journal == number && l.direction == direction,
                     (l: JournalLineRow) => Cents(l.amount), lines);
  }

  lemma LooseJournalsIff(lines: seq<JournalLineRow>)
    ensures SidesReadable(Map(LoosePosting, lines)) && JournalsNear(Map(LoosePosting, lines)) <==>
              forall i :: 0 <= i < |lines| ==> LineSound(lines[i], lines)
  {
    var entries := Map(LoosePosting, lines);
    forall i | 0 <= i < |lines|
      ensures LineSound(lines[i], lines) <==>
                && JournalNear(entries[i].key.0, entries)
                && (entries[i].key.1 == DEBIT || entries[i].key.1 == CREDIT ==> entries[i].cents.Some?)
    {
      LooseSideIs(lines[i].journal, DEBIT, lines);
      LooseSideIs(lines[i].journal, CREDIT, lines);
    }
  }

  /** With colon-free branch and organization codes, the older checker accepts exactly the packs
      that are loosely sound. */
  lemma {:induction false} LooselyAcceptsIffSound(p: Pack)
    requires BranchCodesClean(p) && OrganizationsClean(p)
    ensures LooselyAccepts(p) <==> LooselySound(p)
  {
    LooselyUniqueIff(p);
    LooseItemsParseIff(p.items);
    if forall i :: 0 <= i < |p.items| ==> FilledIn(p.items[i].charge.amount) {
      forall i | 0 <= i < |p.orders|
        ensures SubtotalNear(Map(LooseSubtotal, p.orders)[i], Map(LooseItem, ItemCharges(p.items))) <==>
                  SubtotalSound(p.orders[i], p.items)
      {
        SubtotalNearIff(p, i);
      }
    }
    LooseJournalsIff(p.journalLines);
  }
}
