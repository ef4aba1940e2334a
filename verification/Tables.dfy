/** Database tables as lists of rows, and the bulk insert that ignores duplicates. */
module Tables {
  // ---------- Chunks ----------

  function Flatten<T>(parts: seq<seq<T>>): seq<T> {
    if parts == [] then [] else Flatten(parts[..|parts| - 1]) + parts[|parts| - 1]
  }

  /** Consecutive slices: nothing lost, nothing reordered, all full but perhaps the last. */
  method Chunks<T>(items: seq<T>, size: nat) returns (result: seq<seq<T>>)
    requires size > 0
    ensures Flatten(result) == items
    ensures forall k :: 0 <= k < |result| ==> 0 < |result[k]| <= size
    ensures forall k :: 0 <= k < |result| - 1 ==> |result[k]| == size
  {
    result := [];
    var i := 0;
    while i < |items|
      invariant 0 <= i
      invariant Flatten(result) == items[..if i < |items| then i else |items|]
      invariant forall k :: 0 <= k < |result| ==> 0 < |result[k]| <= size
      invariant forall k :: 0 <= k < |result| ==> i < |items| || k < |result| - 1 ==> |result[k]| == size
    {
      var end := if i + size < |items| then i + size else |items|;
      var slice := items[i..end];
      assert (result + [slice])[..|result|] == result;
      assert items[..i] + slice == items[..end];
      result := result + [slice];
      i := i + size;
    }
    assert items[..|items|] == items;
  }

  // ---------- Insert, ignoring duplicates ----------

  /** Some stored row occupies one of the new row's unique keys. */
  predicate Clashes<T(==)>(conflict: (T, T) -> bool, rows: seq<T>, row: T) {
    exists i :: 0 <= i < |rows| && conflict(rows[i], row)
  }

  /** A bulk insert: each row goes in unless a row already present conflicts with it, be it
      an old one or an earlier one of the same batch. */
  function InsertIgnore<T(==)>(conflict: (T, T) -> bool, rows: seq<T>, batch: seq<T>): seq<T> {
    if batch == [] then rows
    else
      var done := InsertIgnore(conflict, rows, batch[..|batch| - 1]);
      var row := batch[|batch| - 1];
      if Clashes(conflict, done, row) then done else done + [row]
  }

  lemma {:induction false} InsertInTwoSteps<T>(conflict: (T, T) -> bool, rows: seq<T>, a: seq<T>, b: seq<T>)
    ensures InsertIgnore(conflict, rows, a + b) == InsertIgnore(conflict, InsertIgnore(conflict, rows, a), b)
  {
    if b == [] {
      assert a + b == a;
    } else {
      InsertInTwoSteps(conflict, rows, a, b[..|b| - 1]);
      assert (a + b)[..|a + b| - 1] == a + b[..|b| - 1];
    }
  }

  lemma {:induction false} InsertedRowsAreOldOrNew<T>(conflict: (T, T) -> bool, rows: seq<T>, batch: seq<T>)
    ensures forall row :: row in InsertIgnore(conflict, rows, batch) ==> row in rows || row in batch
  {
    if batch != [] {
      InsertedRowsAreOldOrNew(conflict, rows, batch[..|batch| - 1]);
      assert forall row :: row in batch[..|batch| - 1] ==> row in batch;
    }
  }

  /** Rows are added only where no old row is in the way. */
  lemma {:induction false} AddedRowsDoNotClash<T>(conflict: (T, T) -> bool, rows: seq<T>, batch: seq<T>)
    ensures forall row :: row in InsertIgnore(conflict, rows, batch) ==> row in rows || !Clashes(conflict, rows, row)
  {
    if batch != [] {
      var n := |batch| - 1;
      AddedRowsDoNotClash(conflict, rows, batch[..n]);
      InsertKeepsOldRows(conflict, rows, batch[..n]);
      if i :| 0 <= i < |rows| && conflict(rows[i], batch[n]) {
        assert InsertIgnore(conflict, rows, batch[..n])[i] == rows[i];
      }
    }
  }

  /** Old rows stay in place, and at most the batch is added. */
  lemma {:induction false} InsertKeepsOldRows<T>(conflict: (T, T) -> bool, rows: seq<T>, batch: seq<T>)
    ensures rows <= InsertIgnore(conflict, rows, batch)
    ensures |InsertIgnore(conflict, rows, batch)| <= |rows| + |batch|
  {
    if batch != [] {
      InsertKeepsOldRows(conflict, rows, batch[..|batch| - 1]);
    }
  }

  /** Whatever happens, each batch row ends up represented: by itself or by a row it conflicts with. */
  lemma {:induction false} InsertCoversBatch<T>(conflict: (T, T) -> bool, rows: seq<T>, batch: seq<T>, k: nat)
    requires k < |batch| && forall row :: conflict(row, row)
    ensures Clashes(conflict, InsertIgnore(conflict, rows, batch), batch[k])
  {
    var n := |batch| - 1;
    var done := InsertIgnore(conflict, rows, batch[..n]);
    if k < n {
      InsertCoversBatch(conflict, rows, batch[..n], k);
      var i :| 0 <= i < |done| && conflict(done[i], batch[k]);
      assert InsertIgnore(conflict, rows, batch)[i] == done[i];
    } else if !Clashes(conflict, done, batch[n]) {
      assert (done + [batch[n]])[|done|] == batch[n];
    }
  }

  lemma {:induction false} InsertNothingNew<T>(conflict: (T, T) -> bool, rows: seq<T>, batch: seq<T>)
    requires forall k :: 0 <= k < |batch| ==> Clashes(conflict, rows, batch[k])
    ensures InsertIgnore(conflict, rows, batch) == rows
  {
    if batch != [] {
      InsertNothingNew(conflict, rows, batch[..|batch| - 1]);
    }
  }

  /** Inserting a batch a second time adds nothing. */
  lemma {:induction false} InsertIsIdempotent<T>(conflict: (T, T) -> bool, rows: seq<T>, batch: seq<T>)
    requires forall row :: conflict(row, row)
    ensures var once := InsertIgnore(conflict, rows, batch);
            InsertIgnore(conflict, once, batch) == once
  {
    forall k | 0 <= k < |batch|
      ensures Clashes(conflict, InsertIgnore(conflict, rows, batch), batch[k])
    {
      InsertCoversBatch(conflict, rows, batch, k);
    }
    InsertNothingNew(conflict, InsertIgnore(conflict, rows, batch), batch);
  }

  /** No two rows are in conflict: the table meets its unique keys. */
  predicate NoConflicts<T(==)>(conflict: (T, T) -> bool, rows: seq<T>) {
    forall i, j :: 0 <= i < j < |rows| ==> !conflict(rows[i], rows[j])
  }

  /** The insert keeps the unique keys, whatever the batch. */
  lemma {:induction false} InsertKeepsUniqueKeys<T>(conflict: (T, T) -> bool, rows: seq<T>, batch: seq<T>)
    requires NoConflicts(conflict, rows)
    ensures NoConflicts(conflict, InsertIgnore(conflict, rows, batch))
  {
    if batch != [] {
      InsertKeepsUniqueKeys(conflict, rows, batch[..|batch| - 1]);
    }
  }

  datatype Counters = Counters(created: nat, updated: nat, skipped: nat)

  /** The importer's loop: one bulk insert per chunk. The table is that of a single insert of
      everything, and the two counters split the items into new rows and the rest. */
  method InsertInChunks<T(==)>(conflict: (T, T) -> bool, rows: seq<T>, items: seq<T>, size: nat)
    returns (table: seq<T>, counters: Counters)
    requires size > 0
    ensures table == InsertIgnore(conflict, rows, items)
    ensures counters.created == |table| - |rows|
    ensures counters.created + counters.skipped == |items| && counters.updated == 0
  {
    var batches := Chunks(items, size);
    table := rows;
    counters := Counters(0, 0, 0);
    for k := 0 to |batches|
      invariant table == InsertIgnore(conflict, rows, Flatten(batches[..k]))
      invariant counters.created == |table| - |rows| && counters.updated == 0
      invariant counters.created + counters.skipped == |Flatten(batches[..k])|
    {
      assert batches[..k + 1][..k] == batches[..k];
      InsertInTwoSteps(conflict, rows, Flatten(batches[..k]), batches[k]);
      InsertKeepsOldRows(conflict, table, batches[k]);
      var next := InsertIgnore(conflict, table, batches[k]);
      var count := |next| - |table|;
      counters := Counters(counters.created + count, 0, counters.skipped + (|batches[k]| - count));
      table := next;
    }
    assert batches[..|batches|] == batches;
  }
}
