/** The seed's kitchen tickets: one order's items grouped by preparation station. */
module KdsTickets {
  import opened Prelude
  import opened Keys

  datatype Item = Item(id: string, station: string)

  datatype Ticket = Ticket(station: string, itemIds: seq<string>)

  const NO_STATION := "NONE"

  /** The stations that need a ticket, in order of first appearance. */
  function Stations(items: seq<Item>): seq<string> {
    if items == [] then []
    else
      var init, s := Stations(items[..|items| - 1]), items[|items| - 1].station;
      if s == NO_STATION || s in init then init else init + [s]
  }

  /** The items of one station, in order. */
  function IdsAt(station: string, items: seq<Item>): seq<string> {
    if items == [] then []
    else
      var last := items[|items| - 1];
      IdsAt(station, items[..|items| - 1]) + if last.station == station then [last.id] else []
  }

  function Tickets(stations: seq<string>, items: seq<Item>): seq<Ticket> {
    seq(|stations|, i requires 0 <= i < |stations| => Ticket(stations[i], IdsAt(stations[i], items)))
  }

  function GroupAt(groups: map<string, seq<string>>, station: string): seq<string> {
    if station in groups then groups[station] else []
  }

  /** The groups built so far: every station met, with its items in order. */
  ghost predicate Grouped(groups: map<string, seq<string>>, order: seq<string>, items: seq<Item>) {
    && order == Stations(items) && NO_STATION !in order
    && (forall s :: s in groups <==> s in order)
    && (forall s :: s != NO_STATION ==> GroupAt(groups, s) == IdsAt(s, items))
  }

  lemma GroupOneMore(groups: map<string, seq<string>>, order: seq<string>, items: seq<Item>, last: Item)
    requires Grouped(groups, order, items)
    ensures var s := last.station;
            if s == NO_STATION then Grouped(groups, order, items + [last])
            else Grouped(groups[s := GroupAt(groups, s) + [last.id]],
                         if s in groups then order else order + [s], items + [last])
  {
    var s := last.station;
    StationsNext(items, last);
    if s == NO_STATION {
      forall t | t != NO_STATION ensures GroupAt(groups, t) == IdsAt(t, items + [last]) {
        IdsAtNext(t, items, last);
      }
    } else {
      var after := groups[s := GroupAt(groups, s) + [last.id]];
      forall t | t != NO_STATION ensures GroupAt(after, t) == IdsAt(t, items + [last]) {
        IdsAtNext(t, items, last);
      }
    }
  }

  lemma StationsNext(items: seq<Item>, last: Item)
    ensures Stations(items + [last]) ==
              if last.station == NO_STATION || last.station in Stations(items) then Stations(items)
              else Stations(items) + [last.station]
  {
    assert (items + [last])[..|items|] == items;
  }

  lemma IdsAtNext(station: string, items: seq<Item>, last: Item)
    ensures IdsAt(station, items + [last]) ==
              if station == last.station then IdsAt(station, items) + [last.id] else IdsAt(station, items)
  {
    assert (items + [last])[..|items|] == items;
  }

  /** One pass that files each item under its station. */
  method FileItems(items: seq<Item>) returns (groups: map<string, seq<string>>, order: seq<string>)
    ensures Grouped(groups, order, items)
  {
    groups, order := map[], [];
    for i := 0 to |items|
      invariant Grouped(groups, order, items[..i])
    {
      assert items[..i + 1] == items[..i] + [items[i]];
      GroupOneMore(groups, order, items[..i], items[i]);
      var station := items[i].station;
      if station != NO_STATION {
        var ids := GroupAt(groups, station);
        if station !in groups {
          order := order + [station];
        }
        groups := groups[station := ids + [items[i].id]];
      }
    }
    assert items[..|items|] == items;
  }

  /** One ticket per station that has items. */
  method GroupByStation(items: seq<Item>) returns (tickets: seq<Ticket>)
    ensures tickets == Tickets(Stations(items), items)
  {
    var groups, order := FileItems(items);
    tickets := [];
    for k := 0 to |order|
      invariant tickets == Tickets(order[..k], items)
    {
      assert order[k] in order;
      assert order[..k + 1] == order[..k] + [order[k]];
      tickets := tickets + [Ticket(order[k], GroupAt(groups, order[k]))];
    }
    assert order[..|order|] == order;
  }

  // ---------- A partition ----------

  /** The item ids on all the tickets, with multiplicity. */
  function IdsOn(tickets: seq<Ticket>): multiset<string> {
    if tickets == [] then multiset{}
    else IdsOn(tickets[..|tickets| - 1]) + multiset(tickets[|tickets| - 1].itemIds)
  }

  function IdsAcross(stations: seq<string>, items: seq<Item>): multiset<string> {
    if stations == [] then multiset{}
    else IdsAcross(stations[..|stations| - 1], items) + multiset(IdsAt(stations[|stations| - 1], items))
  }

  lemma {:induction false} TicketsHoldStations(stations: seq<string>, items: seq<Item>)
    ensures IdsOn(Tickets(stations, items)) == IdsAcross(stations, items)
  {
    if stations != [] {
      var n := |stations| - 1;
      TicketsHoldStations(stations[..n], items);
      assert Tickets(stations, items)[..n] == Tickets(stations[..n], items);
    }
  }

  /** The items that go to some station. */
  function Routed(items: seq<Item>): seq<string> {
    if items == [] then []
    else
      var last := items[|items| - 1];
      Routed(items[..|items| - 1]) + if last.station == NO_STATION then [] else [last.id]
  }

  lemma {:induction false} StationsExactly(items: seq<Item>)
    ensures Distinct(Stations(items)) && NO_STATION !in Stations(items)
    ensures forall i :: 0 <= i < |items| && items[i].station != NO_STATION ==> items[i].station in Stations(items)
    ensures forall s :: s in Stations(items) ==> IdsAt(s, items) != []
  {
    if items != [] {
      StationsExactly(items[..|items| - 1]);
      assert forall i :: 0 <= i < |items| - 1 ==> items[i] == items[..|items| - 1][i];
      NoneYet(items[|items| - 1].station, items[..|items| - 1]);
    }
  }

  lemma {:induction false} NoneYet(station: string, items: seq<Item>)
    ensures station != NO_STATION && station !in Stations(items) ==> IdsAt(station, items) == []
  {
    if items != [] {
      NoneYet(station, items[..|items| - 1]);
    }
  }

  /** Adding one item to the order adds it to its station's ticket and to no other. */
  lemma {:induction false} OneMoreItem(stations: seq<string>, items: seq<Item>, last: Item)
    requires Distinct(stations)
    ensures IdsAcross(stations, items + [last]) ==
              IdsAcross(stations, items) + if last.station in stations then multiset{last.id} else multiset{}
  {
    if stations != [] {
      var init, s := stations[..|stations| - 1], stations[|stations| - 1];
      assert stations == init + [s];
      OneMoreItem(init, items, last);
      IdsAtNext(s, items, last);
    }
  }

  lemma NewStationIsEmpty(stations: seq<string>, s: string, items: seq<Item>)
    requires IdsAt(s, items) == []
    ensures IdsAcross(stations + [s], items) == IdsAcross(stations, items)
  {
    assert (stations + [s])[..|stations|] == stations;
  }

  lemma {:induction false} StationsPartitionItems(items: seq<Item>)
    ensures IdsAcross(Stations(items), items) == multiset(Routed(items))
  {
    if items != [] {
      var init, last := items[..|items| - 1], items[|items| - 1];
      assert items == init + [last];
      StationsPartitionItems(init);
      StationsExactly(init);
      StationsExactly(items);
      StationsNext(init, last);
      NoneYet(last.station, init);
      if last.station != NO_STATION && last.station !in Stations(init) {
        NewStationIsEmpty(Stations(init), last.station, init);
      }
      OneMoreItem(Stations(items), init, last);
    }
  }

  /** The tickets partition the routed items: each appears on the tickets exactly as often as in
      the order, and items without a station not at all. No two tickets share a station. */
  lemma {:induction false} TicketsPartitionItems(items: seq<Item>)
    ensures IdsOn(Tickets(Stations(items), items)) == multiset(Routed(items))
    ensures Distinct(Stations(items))
  {
    TicketsHoldStations(Stations(items), items);
    StationsPartitionItems(items);
    StationsExactly(items);
  }

  // ---------- Order ----------

  /** One station first appears before another. */
  predicate AppearsBefore(a: string, b: string, items: seq<Item>) {
    exists i :: 0 <= i < |items| && items[i].station == a && forall j :: 0 <= j <= i ==> items[j].station != b
  }

  lemma AppearsBeforeStill(a: string, b: string, items: seq<Item>, last: Item)
    requires AppearsBefore(a, b, items)
    ensures AppearsBefore(a, b, items + [last])
  {
    var i :| 0 <= i < |items| && items[i].station == a && forall j :: 0 <= j <= i ==> items[j].station != b;
    var all := items + [last];
    assert all[i] == items[i] && forall j :: 0 <= j <= i ==> all[j] == items[j];
  }

  lemma {:induction false} StationsHaveItems(items: seq<Item>, s: string)
    ensures s in Stations(items) <==> s != "NONE" && exists i :: 0 <= i < |items| && items[i].station == s
  {
    if items != [] {
      var n := |items| - 1;
      StationsHaveItems(items[..n], s);
      assert forall i :: 0 <= i < n ==> items[..n][i] == items[i];
      assert items[n].station == s ==> exists i :: 0 <= i < |items| && items[i].station == s;
    }
  }

  /** The stations come in the order in which they first appear. */
  lemma {:induction false} StationsInOrder(items: seq<Item>, a: nat, b: nat)
    requires a < b < |Stations(items)|
    ensures AppearsBefore(Stations(items)[a], Stations(items)[b], items)
  {
    var init, last := items[..|items| - 1], items[|items| - 1];
    var before := Stations(init);
    assert items == init + [last];
    if b < |before| {
      StationsInOrder(init, a, b);
      AppearsBeforeStill(before[a], before[b], init, last);
    } else {
      StationsHaveItems(init, before[a]);
      StationsHaveItems(init, last.station);
      var i :| 0 <= i < |init| && init[i].station == before[a];
      assert items[i] == init[i] && forall j :: 0 <= j <= i ==> items[j] == init[j];
    }
  }

  lemma {:induction false} IdsAtIsFilter(station: string, items: seq<Item>)
    ensures IdsAt(station, items) == Map((i: Item) => i.id, Filter((i: Item) => i.station == station, items))
  {
    if items != [] {
      IdsAtIsFilter(station, items[..|items| - 1]);
    }
  }

  /** The tickets one by one: each is for a station of some item, and lists exactly the ids of that
      station's items, in the order of the items. */
  lemma {:induction false} TicketsInOrder(items: seq<Item>, k: nat)
    requires k < |Tickets(Stations(items), items)|
    ensures var t := Tickets(Stations(items), items)[k];
            && t.station != "NONE" && (exists i :: 0 <= i < |items| && items[i].station == t.station)
            && t.itemIds == Map((i: Item) => i.id, Filter((i: Item) => i.station == t.station, items))
            && forall j :: k < j < |Tickets(Stations(items), items)| ==>
                 AppearsBefore(t.station, Tickets(Stations(items), items)[j].station, items)
  {
    var stations := Stations(items);
    StationsHaveItems(items, stations[k]);
    IdsAtIsFilter(stations[k], items);
    forall j | k < j < |stations| ensures AppearsBefore(stations[k], stations[j], items) {
      StationsInOrder(items, k, j);
    }
  }
}
