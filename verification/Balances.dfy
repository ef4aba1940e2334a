/** Outstanding amounts of vendor bills and customer invoices, against what the party paid. */
module Balances {
  import opened Prelude
  import opened Money
  import opened Validator
  import opened ValidatorLaws

  /** A payment to a supplier or a receipt from a customer. */
  datatype SettlementRow = SettlementRow(party: string, amount: string)

  function Settlement(s: SettlementRow): Entry<string> {
    Entry(s.party, Amount(s.amount, 2))
  }

  /** Filter and sum: everything one party settled. */
  function Settled(party: string, settlements: seq<SettlementRow>): int {
    Total(party, Map(Settlement, settlements))
  }

  lemma {:induction false} SettledIsFilter(party: string, settlements: seq<SettlementRow>)
    ensures Settled(party, settlements)
         == SumWhere((s: SettlementRow) => s.party == party, (s: SettlementRow) => Cents(s.amount), settlements)
  {
    if settlements != [] {
      SettledIsFilter(party, settlements[..|settlements| - 1]);
      MapSnoc(Settlement, settlements);
      CentsAreValues(settlements[|settlements| - 1].amount);
    }
  }

  /** The total less everything settled, but not below zero. */
  function OutstandingOf(total: int, settled: int): int {
    if total - settled < 0 then 0 else total - settled
  }

  method SumSettlements(party: string, settlements: seq<SettlementRow>) returns (sum: int)
    ensures sum == Settled(party, settlements)
    ensures sum == SumWhere((s: SettlementRow) => s.party == party, (s: SettlementRow) => Cents(s.amount), settlements)
  {
    sum := 0;
    for i := 0 to |settlements|
      invariant sum == Settled(party, settlements[..i])
    {
      assert settlements[..i + 1][..i] == settlements[..i];
      MapSnoc(Settlement, settlements[..i + 1]);
      CentsAreValues(settlements[i].amount);
      if settlements[i].party == party {
        sum := sum + Cents(settlements[i].amount);
      }
    }
    assert settlements[..|settlements|] == settlements;
    SettledIsFilter(party, settlements);
  }

  /** The outstanding amount the importer writes for each document, in file order. */
  method OutstandingAmounts(documents: seq<DocumentRow>, settlements: seq<SettlementRow>)
    returns (outstanding: seq<int>)
    ensures |outstanding| == |documents|
    ensures forall i :: 0 <= i < |documents| ==>
              outstanding[i] == OutstandingOf(Cents(documents[i].total), Settled(documents[i].party, settlements))
    ensures forall i :: 0 <= i < |documents| && Cents(documents[i].total) >= 0
                        && Settled(documents[i].party, settlements) >= 0 ==>
              0 <= outstanding[i] <= Cents(documents[i].total)
  {
    outstanding := [];
    for i := 0 to |documents|
      invariant |outstanding| == i
      invariant forall k :: 0 <= k < i ==>
                  outstanding[k] == OutstandingOf(Cents(documents[k].total), Settled(documents[k].party, settlements))
    {
      var paid := SumSettlements(documents[i].party, settlements);
      outstanding := outstanding + [OutstandingOf(Cents(documents[i].total), paid)];
    }
  }

  // ---------- One party's documents ----------

  /** The totals of one party's documents, in file order. */
  function TotalsOf(party: string, documents: seq<DocumentRow>): seq<int> {
    if documents == [] then []
    else
      var last := documents[|documents| - 1];
      TotalsOf(party, documents[..|documents| - 1]) + if last.party == party then [Cents(last.total)] else []
  }

  function Sum(xs: seq<int>): int {
    if xs == [] then 0 else Sum(xs[..|xs| - 1]) + xs[|xs| - 1]
  }

  /** Each total less the same settled amount: the whole of it is taken off every document. */
  function OutstandingSum(totals: seq<int>, settled: int): int {
    if totals == [] then 0
    else OutstandingSum(totals[..|totals| - 1], settled) + OutstandingOf(totals[|totals| - 1], settled)
  }

  predicate NonNegative(xs: seq<int>) {
    forall i :: 0 <= i < |xs| ==> xs[i] >= 0
  }

  function PositiveCount(xs: seq<int>): nat {
    if xs == [] then 0 else PositiveCount(xs[..|xs| - 1]) + if xs[|xs| - 1] > 0 then 1 else 0
  }

  function WrittenFor(party: string, documents: seq<DocumentRow>, outstanding: seq<int>): int
    requires |documents| == |outstanding|
  {
    if documents == [] then 0
    else
      var n := |documents| - 1;
      WrittenFor(party, documents[..n], outstanding[..n]) + if documents[n].party == party then outstanding[n] else 0
  }

  /** What is written for one party is the outstanding sum of its totals. */
  lemma {:induction false} WrittenIsOutstandingSum(
    party: string, documents: seq<DocumentRow>, settlements: seq<SettlementRow>, outstanding: seq<int>)
    requires |outstanding| == |documents|
    requires forall i :: 0 <= i < |documents| ==>
               outstanding[i] == OutstandingOf(Cents(documents[i].total), Settled(documents[i].party, settlements))
    ensures WrittenFor(party, documents, outstanding)
         == OutstandingSum(TotalsOf(party, documents), Settled(party, settlements))
  {
    if documents != [] {
      var n := |documents| - 1;
      WrittenIsOutstandingSum(party, documents[..n], settlements, outstanding[..n]);
      var init := TotalsOf(party, documents[..n]);
      assert (init + [Cents(documents[n].total)])[..|init|] == init;
      assert init + [] == init;
    }
  }

  /** Is the sum exactly what is really owed? */
  predicate Exact(totals: seq<int>, settled: int) {
    OutstandingSum(totals, settled) == OutstandingOf(Sum(totals), settled)
  }

  lemma {:induction false} SumsAreNonNegative(totals: seq<int>, settled: int)
    requires NonNegative(totals)
    ensures 0 <= Sum(totals) && 0 <= OutstandingSum(totals, settled)
    ensures PositiveCount(totals) == 0 <==> Sum(totals) == 0
    ensures settled == 0 ==> OutstandingSum(totals, settled) == Sum(totals)
    ensures settled >= 0 ==> OutstandingSum(totals, settled) <= OutstandingOf(Sum(totals), settled)
  {
    if totals != [] {
      SumsAreNonNegative(totals[..|totals| - 1], settled);
    }
  }

  /** Per party the written amounts never exceed what is owed, and they equal it exactly when
      nothing was settled, everything was, or only one document has a positive total: with two
      open documents and a partial settlement, the settlement is counted against both. */
  lemma {:induction false} OutstandingNeverOverstates(totals: seq<int>, settled: int)
    requires NonNegative(totals) && settled >= 0
    ensures OutstandingSum(totals, settled) <= OutstandingOf(Sum(totals), settled)
    ensures Exact(totals, settled) <==> settled == 0 || Sum(totals) <= settled || PositiveCount(totals) == 1
  {
    SumsAreNonNegative(totals, settled);
    if totals != [] {
      var init, t := totals[..|totals| - 1], totals[|totals| - 1];
      SumsAreNonNegative(init, settled);
      OutstandingNeverOverstates(init, settled);
    }
  }

  lemma {:induction false} TotalsAreNonNegative(party: string, documents: seq<DocumentRow>)
    requires forall i :: 0 <= i < |documents| ==> Cents(documents[i].total) >= 0
    ensures NonNegative(TotalsOf(party, documents))
  {
    if documents != [] {
      TotalsAreNonNegative(party, documents[..|documents| - 1]);
    }
  }

  lemma {:induction false} SettledIsNonNegative(party: string, settlements: seq<SettlementRow>)
    requires forall i :: 0 <= i < |settlements| ==> Cents(settlements[i].amount) >= 0
    ensures Settled(party, settlements) >= 0
  {
    if settlements != [] {
      SettledIsNonNegative(party, settlements[..|settlements| - 1]);
      MapSnoc(Settlement, settlements);
      CentsAreValues(settlements[|settlements| - 1].amount);
    }
  }

  /** The same, of the amounts actually written for a whole file. */
  lemma {:induction false} PartyOutstandingNeverOverstates(
    party: string, documents: seq<DocumentRow>, settlements: seq<SettlementRow>, outstanding: seq<int>)
    requires |outstanding| == |documents|
    requires forall i :: 0 <= i < |documents| ==>
               outstanding[i] == OutstandingOf(Cents(documents[i].total), Settled(documents[i].party, settlements))
    requires forall i :: 0 <= i < |documents| ==> Cents(documents[i].total) >= 0
    requires forall i :: 0 <= i < |settlements| ==> Cents(settlements[i].amount) >= 0
    ensures var totals, settled := TotalsOf(party, documents), Settled(party, settlements);
            var written := WrittenFor(party, documents, outstanding);
            && 0 <= written <= OutstandingOf(Sum(totals), settled)
            && (written == OutstandingOf(Sum(totals), settled) <==>
                  settled == 0 || Sum(totals) <= settled || PositiveCount(totals) == 1)
  {
    WrittenIsOutstandingSum(party, documents, settlements, outstanding);
    TotalsAreNonNegative(party, documents);
    SettledIsNonNegative(party, settlements);
    SumsAreNonNegative(TotalsOf(party, documents), Settled(party, settlements));
    OutstandingNeverOverstates(TotalsOf(party, documents), Settled(party, settlements));
  }

  lemma SumsOfTwo(t: int, u: int, settled: int)
    ensures Sum([t, u]) == t + u
    ensures OutstandingSum([t, u], settled) == OutstandingOf(t, settled) + OutstandingOf(u, settled)
  {
    var one: seq<int> := [t];
    assert one[..0] == [] && [t, u][..1] == one;
    assert Sum(one) == Sum(one[..0]) + t && Sum([t, u]) == Sum(one) + u;
    assert OutstandingSum(one, settled) == OutstandingOf(t, settled);
  }

  /** Two open documents and one part payment: the payment is taken off both, so what is written
      is short of what is owed by the payment. */
  lemma {:induction false} PartPaymentIsCountedTwice(d: DocumentRow, e: DocumentRow, s: SettlementRow)
    requires d.party == e.party == s.party
    requires 0 < Cents(s.amount) <= Cents(d.total) && Cents(s.amount) <= Cents(e.total)
    ensures var totals, settled := TotalsOf(d.party, [d, e]), Settled(d.party, [s]);
            && totals == [Cents(d.total), Cents(e.total)] && settled == Cents(s.amount)
            && OutstandingSum(totals, settled) == OutstandingOf(Sum(totals), settled) - settled
  {
    TotalsOfTwo(d, e);
    SettledByOne(s);
    SumsOfTwo(Cents(d.total), Cents(e.total), Cents(s.amount));
  }

  lemma TotalsOfTwo(d: DocumentRow, e: DocumentRow)
    requires d.party == e.party
    ensures TotalsOf(d.party, [d, e]) == [Cents(d.total), Cents(e.total)]
  {
    assert [d, e][..1] == [d] && [d][..0] == [];
    assert TotalsOf(d.party, [d]) == [Cents(d.total)];
  }

  lemma SettledByOne(s: SettlementRow)
    ensures Settled(s.party, [s]) == Cents(s.amount)
  {
    TotalSnoc(s.party, [], Settlement(s));
    assert Map(Settlement, [s]) == [] + [Settlement(s)];
    CentsAreValues(s.amount);
  }
}
