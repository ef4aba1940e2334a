/** Rows that belong to an order, such as its items and its payments. The importer deletes those of
    its orders and creates the file's again, ignoring any whose id is taken. */
module OwnedRows {
  import opened Tables

  /** A row id: one derived from a label by hashing, which is taken to be injective, or any other. */
  datatype Id = StableId(text: string) | OtherId(text: string)

  /** What matters of such a row, whatever else it holds. */
  datatype Owned = Owned(id: Id, orderId: Id, amount: int)

  /** The rows of other orders than these. */
  function Outside<T>(view: T -> Owned, rows: seq<T>, orderIds: seq<Id>): seq<T> {
    if rows == [] then []
    else
      var last := rows[|rows| - 1];
      Outside(view, rows[..|rows| - 1], orderIds) + if view(last).orderId in orderIds then [] else [last]
  }

  /** Filter and sum over the rows of one order. */
  function SumFor<T>(view: T -> Owned, orderId: Id, rows: seq<T>): int {
    if rows == [] then 0
    else
      var last := view(rows[|rows| - 1]);
      SumFor(view, orderId, rows[..|rows| - 1]) + if last.orderId == orderId then last.amount else 0
  }

  predicate Holds<T>(view: T -> Owned, rows: seq<T>, id: Id) {
    exists k :: 0 <= k < |rows| && view(rows[k]).id == id
  }

  /** The id is the only unique key of the table. */
  ghost predicate ConflictsById<T(!new)>(view: T -> Owned, conflict: (T, T) -> bool) {
    forall a, b :: conflict(a, b) <==> view(a).id == view(b).id
  }

  lemma SumSnoc<T>(view: T -> Owned, orderId: Id, rows: seq<T>, row: T)
    ensures SumFor(view, orderId, rows + [row]) ==
              SumFor(view, orderId, rows) + if view(row).orderId == orderId then view(row).amount else 0
  {
    assert (rows + [row])[..|rows|] == rows;
  }

  lemma {:induction false} NoRowsNoSum<T>(view: T -> Owned, orderId: Id, rows: seq<T>)
    requires forall row :: row in rows ==> view(row).orderId != orderId
    ensures SumFor(view, orderId, rows) == 0
  {
    if rows != [] {
      var init, last := rows[..|rows| - 1], rows[|rows| - 1];
      assert forall row :: row in init ==> row in rows;
      NoRowsNoSum(view, orderId, init);
      assert last in rows;
    }
  }

  // ---------- Deleting by order ----------

  lemma {:induction false} OutsideExactly<T>(view: T -> Owned, rows: seq<T>, orderIds: seq<Id>, row: T)
    ensures row in Outside(view, rows, orderIds) <==> row in rows && view(row).orderId !in orderIds
  {
    if rows != [] {
      OutsideExactly(view, rows[..|rows| - 1], orderIds, row);
      assert rows == rows[..|rows| - 1] + [rows[|rows| - 1]];
    }
  }

  lemma {:induction false} OutsideSum<T>(view: T -> Owned, orderId: Id, rows: seq<T>, orderIds: seq<Id>)
    ensures SumFor(view, orderId, Outside(view, rows, orderIds)) ==
              if orderId in orderIds then 0 else SumFor(view, orderId, rows)
  {
    if rows != [] {
      var init, last := rows[..|rows| - 1], rows[|rows| - 1];
      OutsideSum(view, orderId, init, orderIds);
      SumSnoc(view, orderId, Outside(view, init, orderIds), last);
      assert Outside(view, init, orderIds) + [] == Outside(view, init, orderIds);
    }
  }

  lemma {:induction false} OutsideTwice<T>(view: T -> Owned, rows: seq<T>, orderIds: seq<Id>)
    ensures Outside(view, Outside(view, rows, orderIds), orderIds) == Outside(view, rows, orderIds)
  {
    if rows != [] {
      var outside, last := Outside(view, rows[..|rows| - 1], orderIds), rows[|rows| - 1];
      OutsideTwice(view, rows[..|rows| - 1], orderIds);
      assert (outside + [last])[..|outside|] == outside;
      assert outside + [] == outside;
    }
  }

  lemma {:induction false} OutsideKeepsUniqueKeys<T>(
    view: T -> Owned, conflict: (T, T) -> bool, rows: seq<T>, orderIds: seq<Id>)
    requires NoConflicts(conflict, rows)
    ensures NoConflicts(conflict, Outside(view, rows, orderIds))
  {
    if rows != [] {
      var n := |rows| - 1;
      var outside := Outside(view, rows[..n], orderIds);
      OutsideKeepsUniqueKeys(view, conflict, rows[..n], orderIds);
      forall i | 0 <= i < |outside| ensures !conflict(outside[i], rows[n]) {
        OutsideExactly(view, rows[..n], orderIds, outside[i]);
        var k :| 0 <= k < n && rows[..n][k] == outside[i];
        assert rows[k] == outside[i];
      }
    }
  }

  // ---------- Creating, and ignoring what is taken ----------

  /** The rows that the insert ignores: their id is taken by a kept row or by an earlier new one. */
  function Ignored<T>(view: T -> Owned, kept: seq<T>, creates: seq<T>): seq<T> {
    if creates == [] then []
    else
      var init, last := creates[..|creates| - 1], creates[|creates| - 1];
      Ignored(view, kept, init)
      + if Holds(view, kept, view(last).id) || Holds(view, init, view(last).id) then [last] else []
  }

  lemma HoldsSnoc<T>(view: T -> Owned, rows: seq<T>, row: T, id: Id)
    ensures Holds(view, rows + [row], id) <==> Holds(view, rows, id) || view(row).id == id
  {
    var all := rows + [row];
    assert all[|rows|] == row && forall k :: 0 <= k < |rows| ==> all[k] == rows[k];
    if k :| 0 <= k < |rows| && view(rows[k]).id == id {
      assert view(all[k]).id == id;
    }
  }

  lemma {:induction false} HeldAfterInsert<T(!new)>(
    view: T -> Owned, conflict: (T, T) -> bool, kept: seq<T>, creates: seq<T>, id: Id)
    requires ConflictsById(view, conflict)
    ensures Holds(view, InsertIgnore(conflict, kept, creates), id) <==>
              Holds(view, kept, id) || Holds(view, creates, id)
  {
    if creates != [] {
      var init, last := creates[..|creates| - 1], creates[|creates| - 1];
      HeldAfterInsert(view, conflict, kept, init, id);
      assert creates == init + [last];
      HoldsSnoc(view, init, last, id);
      HoldsSnoc(view, InsertIgnore(conflict, kept, init), last, id);
    }
  }

  lemma ClashesIffHeld<T(!new)>(view: T -> Owned, conflict: (T, T) -> bool, rows: seq<T>, row: T)
    requires ConflictsById(view, conflict)
    ensures Clashes(conflict, rows, row) <==> Holds(view, rows, view(row).id)
  {
  }

  /** What the insert adds to an order: all that is new for it, less what is ignored. */
  lemma {:induction false} InsertedSum<T(!new)>(
    view: T -> Owned, conflict: (T, T) -> bool, orderId: Id, kept: seq<T>, creates: seq<T>)
    requires ConflictsById(view, conflict)
    ensures SumFor(view, orderId, InsertIgnore(conflict, kept, creates))
         == SumFor(view, orderId, kept) + SumFor(view, orderId, creates)
            - SumFor(view, orderId, Ignored(view, kept, creates))
  {
    if creates != [] {
      var init, last := creates[..|creates| - 1], creates[|creates| - 1];
      var done, ignored := InsertIgnore(conflict, kept, init), Ignored(view, kept, init);
      InsertedSum(view, conflict, orderId, kept, init);
      HeldAfterInsert(view, conflict, kept, init, view(last).id);
      ClashesIffHeld(view, conflict, done, last);
      SumSnoc(view, orderId, done, last);
      SumSnoc(view, orderId, ignored, last);
      assert ignored + [] == ignored;
    }
  }

  lemma {:induction false} OutsideOfInserted<T>(
    view: T -> Owned, conflict: (T, T) -> bool, kept: seq<T>, creates: seq<T>, orderIds: seq<Id>)
    requires forall c :: c in creates ==> view(c).orderId in orderIds
    ensures Outside(view, InsertIgnore(conflict, kept, creates), orderIds) == Outside(view, kept, orderIds)
  {
    if creates != [] {
      var init, last := creates[..|creates| - 1], creates[|creates| - 1];
      assert forall c :: c in init ==> c in creates;
      OutsideOfInserted(view, conflict, kept, init, orderIds);
      var done := InsertIgnore(conflict, kept, init);
      assert last in creates;
      assert (done + [last])[..|done|] == done;
      assert Outside(view, done, orderIds) + [] == Outside(view, done, orderIds);
    }
  }

  // ---------- The file's side ----------

  /** What a row of a file becomes: its id, the key of its order, its amount. */
  datatype Filed = Filed(id: Id, key: string, amount: int)

  /** Filter and sum over the rows filed under one key. */
  function SumUnder(key: string, filed: seq<Filed>): int {
    if filed == [] then 0
    else
      var last := filed[|filed| - 1];
      SumUnder(key, filed[..|filed| - 1]) + if last.key == key then last.amount else 0
  }

  /** A row of an order outside these holds the id. */
  predicate HeldElsewhere<T>(view: T -> Owned, held: seq<T>, orderIds: seq<Id>, id: Id) {
    exists k :: 0 <= k < |held| && view(held[k]).id == id && view(held[k]).orderId !in orderIds
  }

  predicate FiledBefore(filed: seq<Filed>, id: Id) {
    exists k :: 0 <= k < |filed| && filed[k].id == id
  }

  /** The row will not arrive: an order outside these holds its id, or an earlier row has it. */
  predicate WillMiss<T>(view: T -> Owned, held: seq<T>, orderIds: seq<Id>, before: seq<Filed>, f: Filed) {
    HeldElsewhere(view, held, orderIds, f.id) || FiledBefore(before, f.id)
  }

  /** The rows of the file that will not arrive. All of it can be read off the file and the
      stored rows. */
  function Lost<T>(view: T -> Owned, held: seq<T>, orderIds: seq<Id>, filed: seq<Filed>): seq<Filed> {
    if filed == [] then []
    else
      var init, last := filed[..|filed| - 1], filed[|filed| - 1];
      Lost(view, held, orderIds, init)
      + if WillMiss(view, held, orderIds, init, last) then [last] else []
  }

  lemma KeptHoldIffElsewhere<T>(view: T -> Owned, held: seq<T>, orderIds: seq<Id>, id: Id)
    ensures Holds(view, Outside(view, held, orderIds), id) <==> HeldElsewhere(view, held, orderIds, id)
  {
    var kept := Outside(view, held, orderIds);
    if k :| 0 <= k < |kept| && view(kept[k]).id == id {
      OutsideExactly(view, held, orderIds, kept[k]);
      var h :| 0 <= h < |held| && held[h] == kept[k];
    }
    if k :| 0 <= k < |held| && view(held[k]).id == id && view(held[k]).orderId !in orderIds {
      OutsideExactly(view, held, orderIds, held[k]);
    }
  }

  /** The row made from a row of the file belongs to the order its key leads to. */
  predicate MadeFrom(o: Owned, f: Filed, index: map<string, Id>) {
    f.key in index && o == Owned(f.id, index[f.key], f.amount)
  }

  predicate AllMadeFrom<T>(view: T -> Owned, creates: seq<T>, filed: seq<Filed>, index: map<string, Id>) {
    |creates| == |filed| && forall i :: 0 <= i < |filed| ==> MadeFrom(view(creates[i]), filed[i], index)
  }

  lemma MadeSnoc<T>(view: T -> Owned, creates: seq<T>, filed: seq<Filed>, index: map<string, Id>, c: T, f: Filed)
    requires AllMadeFrom(view, creates, filed, index) && MadeFrom(view(c), f, index)
    ensures AllMadeFrom(view, creates + [c], filed + [f], index)
  {
    var cs, fs := creates + [c], filed + [f];
    forall i | 0 <= i < |fs| ensures MadeFrom(view(cs[i]), fs[i], index) {
      assert i < |filed| ==> MadeFrom(view(creates[i]), filed[i], index);
    }
  }

  lemma MadeInit<T>(view: T -> Owned, creates: seq<T>, filed: seq<Filed>, index: map<string, Id>, n: nat)
    requires AllMadeFrom(view, creates, filed, index) && n <= |filed|
    ensures AllMadeFrom(view, creates[..n], filed[..n], index)
  {
    forall i | 0 <= i < n ensures MadeFrom(view(creates[..n][i]), filed[..n][i], index) {
      assert MadeFrom(view(creates[i]), filed[i], index);
    }
  }

  lemma MadeHoldIffFiled<T>(view: T -> Owned, creates: seq<T>, filed: seq<Filed>, index: map<string, Id>, id: Id)
    requires AllMadeFrom(view, creates, filed, index)
    ensures Holds(view, creates, id) <==> FiledBefore(filed, id)
  {
    if k :| 0 <= k < |creates| && view(creates[k]).id == id {
      assert MadeFrom(view(creates[k]), filed[k], index);
    }
    if k :| 0 <= k < |filed| && filed[k].id == id {
      assert MadeFrom(view(creates[k]), filed[k], index);
    }
  }

  lemma OneMoreIgnored<T>(
    view: T -> Owned, kept: seq<T>, held: seq<T>, orderIds: seq<Id>,
    creates: seq<T>, filed: seq<Filed>, index: map<string, Id>, n: nat)
    requires |creates| == |filed| == n + 1 && MadeFrom(view(creates[n]), filed[n], index)
    requires AllMadeFrom(view, Ignored(view, kept, creates[..n]), Lost(view, held, orderIds, filed[..n]), index)
    requires Holds(view, kept, view(creates[n]).id) || Holds(view, creates[..n], view(creates[n]).id)
        <==> WillMiss(view, held, orderIds, filed[..n], filed[n])
    ensures AllMadeFrom(view, Ignored(view, kept, creates), Lost(view, held, orderIds, filed), index)
  {
    var ignored, lost := Ignored(view, kept, creates[..n]), Lost(view, held, orderIds, filed[..n]);
    MadeSnoc(view, ignored, lost, index, creates[n], filed[n]);
    assert ignored + [] == ignored && lost + [] == lost;
  }

  /** What the insert ignores is made from what is lost of the file. */
  lemma {:induction false} IgnoredAreLost<T>(
    view: T -> Owned, held: seq<T>, orderIds: seq<Id>,
    creates: seq<T>, filed: seq<Filed>, index: map<string, Id>)
    requires AllMadeFrom(view, creates, filed, index)
    ensures AllMadeFrom(view, Ignored(view, Outside(view, held, orderIds), creates),
                        Lost(view, held, orderIds, filed), index)
  {
    if filed != [] {
      var n := |filed| - 1;
      MadeInit(view, creates, filed, index, n);
      IgnoredAreLost(view, held, orderIds, creates[..n], filed[..n], index);
      assert MadeFrom(view(creates[n]), filed[n], index);
      KeptHoldIffElsewhere(view, held, orderIds, filed[n].id);
      MadeHoldIffFiled(view, creates[..n], filed[..n], index, filed[n].id);
      OneMoreIgnored(view, Outside(view, held, orderIds), held, orderIds, creates, filed, index, n);
    }
  }

  /** Exactly this key leads to the order. */
  predicate OnlyKeyOf(index: map<string, Id>, key: string, orderId: Id) {
    forall k :: k in index ==> (index[k] == orderId <==> k == key)
  }

  lemma {:induction false} SumOfMade<T>(
    view: T -> Owned, creates: seq<T>, filed: seq<Filed>, index: map<string, Id>, key: string, orderId: Id)
    requires AllMadeFrom(view, creates, filed, index) && OnlyKeyOf(index, key, orderId)
    ensures SumFor(view, orderId, creates) == SumUnder(key, filed)
  {
    if filed != [] {
      var n := |filed| - 1;
      MadeInit(view, creates, filed, index, n);
      SumOfMade(view, creates[..n], filed[..n], index, key, orderId);
      assert MadeFrom(view(creates[n]), filed[n], index);
    }
  }

  /** Delete and recreate: an order ends with what the file has under its key, less what is lost,
      whatever rows it had before. */
  lemma {:induction false} RecreatedSum<T(!new)>(
    view: T -> Owned, conflict: (T, T) -> bool, held: seq<T>, orderIds: seq<Id>,
    creates: seq<T>, filed: seq<Filed>, index: map<string, Id>, key: string, orderId: Id)
    requires ConflictsById(view, conflict) && AllMadeFrom(view, creates, filed, index)
    requires OnlyKeyOf(index, key, orderId) && orderId in orderIds
    ensures SumFor(view, orderId, InsertIgnore(conflict, Outside(view, held, orderIds), creates))
         == SumUnder(key, filed) - SumUnder(key, Lost(view, held, orderIds, filed))
  {
    var kept := Outside(view, held, orderIds);
    OutsideSum(view, orderId, held, orderIds);
    InsertedSum(view, conflict, orderId, kept, creates);
    IgnoredAreLost(view, held, orderIds, creates, filed, index);
    SumOfMade(view, creates, filed, index, key, orderId);
    SumOfMade(view, Ignored(view, kept, creates), Lost(view, held, orderIds, filed), index, key, orderId);
  }

  /** Another order keeps exactly what it had. */
  lemma {:induction false} OtherSum<T(!new)>(
    view: T -> Owned, conflict: (T, T) -> bool, held: seq<T>, orderIds: seq<Id>, creates: seq<T>, orderId: Id)
    requires ConflictsById(view, conflict) && orderId !in orderIds
    requires forall c :: c in creates ==> view(c).orderId in orderIds
    ensures SumFor(view, orderId, InsertIgnore(conflict, Outside(view, held, orderIds), creates))
         == SumFor(view, orderId, held)
  {
    var kept := Outside(view, held, orderIds);
    OutsideSum(view, orderId, held, orderIds);
    InsertedSum(view, conflict, orderId, kept, creates);
    IgnoredAreCreates(view, kept, creates);
    NoRowsNoSum(view, orderId, creates);
    NoRowsNoSum(view, orderId, Ignored(view, kept, creates));
  }

  lemma {:induction false} IgnoredAreCreates<T>(view: T -> Owned, kept: seq<T>, creates: seq<T>)
    ensures forall c :: c in Ignored(view, kept, creates) ==> c in creates
  {
    if creates != [] {
      IgnoredAreCreates(view, kept, creates[..|creates| - 1]);
      assert creates == creates[..|creates| - 1] + [creates[|creates| - 1]];
    }
  }

  // ---------- What is lost, in terms of the file ----------

  /** Only the members of the list of orders matter. */
  lemma {:induction false} SameOrdersSameLosses<T>(
    view: T -> Owned, held: seq<T>, a: seq<Id>, b: seq<Id>, filed: seq<Filed>)
    requires forall id :: id in a <==> id in b
    ensures Lost(view, held, a, filed) == Lost(view, held, b, filed)
  {
    if filed != [] {
      SameOrdersSameLosses(view, held, a, b, filed[..|filed| - 1]);
    }
  }

  /** Nothing is lost when every id is free and occurs once. */
  lemma {:induction false} NothingLost<T>(view: T -> Owned, held: seq<T>, orderIds: seq<Id>, filed: seq<Filed>)
    requires forall i :: 0 <= i < |filed| ==>
               !WillMiss(view, held, orderIds, filed[..i], filed[i])
    ensures Lost(view, held, orderIds, filed) == []
  {
    if filed != [] {
      var n := |filed| - 1;
      forall i | 0 <= i < n ensures filed[..n][..i] == filed[..i] && filed[..n][i] == filed[i] {
      }
      NothingLost(view, held, orderIds, filed[..n]);
    }
  }

  /** The i-th row of the file will not arrive. */
  predicate Misses<T>(view: T -> Owned, held: seq<T>, orderIds: seq<Id>, filed: seq<Filed>, i: nat)
    requires i < |filed|
  {
    WillMiss(view, held, orderIds, filed[..i], filed[i])
  }

  lemma LostNext<T>(view: T -> Owned, held: seq<T>, orderIds: seq<Id>, filed: seq<Filed>, n: nat)
    requires n < |filed|
    ensures var lost := Lost(view, held, orderIds, filed[..n]);
            Lost(view, held, orderIds, filed[..n + 1])
            == if Misses(view, held, orderIds, filed, n) then lost + [filed[n]] else lost
  {
    LostSnoc(view, held, orderIds, filed[..n + 1]);
    assert filed[..n + 1][..n] == filed[..n];
  }

  lemma {:induction false} OneLostSoFar<T>(
    view: T -> Owned, held: seq<T>, orderIds: seq<Id>, filed: seq<Filed>, j: nat, n: nat)
    requires n <= |filed|
    requires forall i :: 0 <= i < n ==> (Misses(view, held, orderIds, filed, i) <==> i == j)
    ensures Lost(view, held, orderIds, filed[..n]) == if j < n then [filed[j]] else []
  {
    if n > 0 {
      OneLostSoFar(view, held, orderIds, filed, j, n - 1);
      LostNext(view, held, orderIds, filed, n - 1);
    }
  }

  /** One row is lost when exactly its id is not free. */
  lemma {:induction false} OneLost<T>(view: T -> Owned, held: seq<T>, orderIds: seq<Id>, filed: seq<Filed>, j: nat)
    requires forall i :: 0 <= i < |filed| ==> (Misses(view, held, orderIds, filed, i) <==> i == j)
    ensures Lost(view, held, orderIds, filed) == if j < |filed| then [filed[j]] else []
  {
    OneLostSoFar(view, held, orderIds, filed, j, |filed|);
    assert filed[..|filed|] == filed;
  }

  lemma LostSnoc<T>(view: T -> Owned, held: seq<T>, orderIds: seq<Id>, filed: seq<Filed>)
    requires filed != []
    ensures var n := |filed| - 1;
            var lost := Lost(view, held, orderIds, filed[..n]);
            Lost(view, held, orderIds, filed)
            == if WillMiss(view, held, orderIds, filed[..n], filed[n]) then lost + [filed[n]] else lost
  {
  }

  lemma SumUnderSnoc(key: string, filed: seq<Filed>, f: Filed)
    ensures SumUnder(key, filed + [f]) == SumUnder(key, filed) + if f.key == key then f.amount else 0
  {
    assert (filed + [f])[..|filed|] == filed;
  }

  lemma {:induction false} LossIsNotNegative<T>(
    view: T -> Owned, held: seq<T>, orderIds: seq<Id>, filed: seq<Filed>, key: string)
    requires forall i :: 0 <= i < |filed| ==> filed[i].amount >= 0
    ensures SumUnder(key, Lost(view, held, orderIds, filed)) >= 0
  {
    if filed != [] {
      var n := |filed| - 1;
      var lost := Lost(view, held, orderIds, filed[..n]);
      LossIsNotNegative(view, held, orderIds, filed[..n], key);
      SumUnderSnoc(key, lost, filed[n]);
      assert lost + [] == lost;
    }
  }

  lemma LossGrows<T>(view: T -> Owned, held: seq<T>, orderIds: seq<Id>, filed: seq<Filed>, key: string)
    requires filed != [] && filed[|filed| - 1].amount >= 0
    ensures var n := |filed| - 1;
            var before, after := SumUnder(key, Lost(view, held, orderIds, filed[..n])),
                                 SumUnder(key, Lost(view, held, orderIds, filed));
            && before <= after
            && (filed[n].key == key && WillMiss(view, held, orderIds, filed[..n], filed[n]) ==>
                  after == before + filed[n].amount)
  {
    var n := |filed| - 1;
    LostSnoc(view, held, orderIds, filed);
    SumUnderSnoc(key, Lost(view, held, orderIds, filed[..n]), filed[n]);
  }

  /** With amounts that are not negative, a lost row is missing from the sum of its key. */
  lemma {:induction false} LostIsMissing<T>(
    view: T -> Owned, held: seq<T>, orderIds: seq<Id>, filed: seq<Filed>, j: nat)
    requires forall i :: 0 <= i < |filed| ==> filed[i].amount >= 0
    requires j < |filed|
    requires WillMiss(view, held, orderIds, filed[..j], filed[j])
    ensures SumUnder(filed[j].key, Lost(view, held, orderIds, filed)) >= filed[j].amount
  {
    var n := |filed| - 1;
    LossGrows(view, held, orderIds, filed, filed[j].key);
    if j < n {
      assert filed[..n][..j] == filed[..j] && filed[..n][j] == filed[j];
      LostIsMissing(view, held, orderIds, filed[..n], j);
    } else {
      LossIsNotNegative(view, held, orderIds, filed[..n], filed[j].key);
    }
  }
}
