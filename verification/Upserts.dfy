/** Row-by-row upserts on a table with a unique key and a unique row id. */
module Upserts {
  import opened Prelude
  import opened Tables

  type Fields = map<string, string>

  datatype StoredRow = StoredRow(id: string, fields: Fields)

  type KeyedTable<K> = map<K, StoredRow>

  /** One upsert: the unique key looked up, the row to create and the fields to update. */
  datatype Upsert<K> = Upsert(key: K, create: StoredRow, update: Fields)

  datatype Outcome = Created | Updated | Skipped

  datatype DbError = UniqueViolation

  predicate IdTaken<K(==)>(table: KeyedTable<K>, id: string) {
    exists k :: k in table && table[k].id == id
  }

  /** Look up; in skip mode leave an existing row alone; else update it or create it. */
  function UpsertOne<K(==)>(table: KeyedTable<K>, op: Upsert<K>, skipExisting: bool)
    : Result<(KeyedTable<K>, Outcome), DbError>
  {
    if op.key in table then
      if skipExisting then Ok((table, Skipped))
      else
        var row := table[op.key];
        Ok((table[op.key := row.(fields := row.fields + op.update)], Updated))
    else if IdTaken(table, op.create.id) then Err(UniqueViolation)
    else Ok((table[op.key := op.create], Created))
  }

  function UpsertAll<K(==)>(table: KeyedTable<K>, ops: seq<Upsert<K>>, skipExisting: bool)
    : Result<KeyedTable<K>, DbError>
  {
    if ops == [] then Ok(table)
    else
      var done := UpsertAll(table, ops[..|ops| - 1], skipExisting);
      if done.Err? then done
      else
        var last := UpsertOne(done.value, ops[|ops| - 1], skipExisting);
        if last.Err? then Err(last.error) else Ok(last.value.0)
  }

  function KeysOf<K(==)>(ops: seq<Upsert<K>>): set<K> {
    if ops == [] then {} else KeysOf(ops[..|ops| - 1]) + {ops[|ops| - 1].key}
  }

  lemma {:induction false} UpsertKeys<K>(table: KeyedTable<K>, ops: seq<Upsert<K>>, skipExisting: bool)
    requires UpsertAll(table, ops, skipExisting).Ok?
    ensures UpsertAll(table, ops, skipExisting).value.Keys == table.Keys + KeysOf(ops)
  {
    if ops != [] {
      UpsertKeys(table, ops[..|ops| - 1], skipExisting);
    }
  }

  function Count(counters: Counters, outcome: Outcome): Counters {
    match outcome
    case Created => counters.(created := counters.created + 1)
    case Updated => counters.(updated := counters.updated + 1)
    case Skipped => counters.(skipped := counters.skipped + 1)
  }

  /** The keys of the file that the table does not hold. */
  function NewKeys<K(==)>(table: KeyedTable<K>, ops: seq<Upsert<K>>): set<K> {
    KeysOf(ops) - table.Keys
  }

  lemma UpsertGrowth<K>(table: KeyedTable<K>, ops: seq<Upsert<K>>, skipExisting: bool)
    requires UpsertAll(table, ops, skipExisting).Ok?
    ensures |UpsertAll(table, ops, skipExisting).value| == |table| + |NewKeys(table, ops)|
  {
    var t := UpsertAll(table, ops, skipExisting).value;
    UpsertKeys(table, ops, skipExisting);
    assert t.Keys == table.Keys + NewKeys(table, ops);
    assert |t| == |t.Keys| && |table| == |table.Keys|;
  }

  lemma OutcomeOfOne<K>(table: KeyedTable<K>, op: Upsert<K>, skipExisting: bool)
    requires UpsertOne(table, op, skipExisting).Ok?
    ensures var (t, outcome) := UpsertOne(table, op, skipExisting).value;
            && |t| == |table| + (if outcome.Created? then 1 else 0)
            && (if skipExisting then !outcome.Updated? else !outcome.Skipped?)
  {
    var t := UpsertOne(table, op, skipExisting).value.0;
    assert t.Keys == table.Keys + {op.key};
    assert |t| == |t.Keys| && |table| == |table.Keys|;
  }

  lemma UpsertNext<K>(table: KeyedTable<K>, ops: seq<Upsert<K>>, n: nat, skipExisting: bool, t: KeyedTable<K>)
    requires n < |ops| && UpsertAll(table, ops[..n], skipExisting) == Ok(t)
    ensures var step := UpsertOne(t, ops[n], skipExisting);
            if step.Err? then UpsertAll(table, ops, skipExisting) == Err(step.error)
            else UpsertAll(table, ops[..n + 1], skipExisting) == Ok(step.value.0)
  {
    assert ops[..n + 1][..n] == ops[..n];
    if UpsertOne(t, ops[n], skipExisting).Err? {
      UpsertFailsForGood(table, ops, n + 1, skipExisting);
    }
  }

  /** The table is what the upserts before some failing one made of it. */
  ghost predicate StoppedAt<K>(
    start: KeyedTable<K>, ops: seq<Upsert<K>>, skipExisting: bool, rows: KeyedTable<K>, error: DbError)
  {
    exists n :: 0 <= n < |ops| && UpsertAll(start, ops[..n], skipExisting) == Ok(rows)
                && UpsertOne(rows, ops[n], skipExisting) == Err(error)
  }

  /** One table, updated row by row. A failed run keeps the rows already written. */
  class TableStore<K(==)> {
    var rows: KeyedTable<K>

    constructor (rows: KeyedTable<K>)
      ensures this.rows == rows
    {
      this.rows := rows;
    }

    method UpsertWithWhere(op: Upsert<K>, skipExisting: bool) returns (result: Result<Outcome, DbError>)
      modifies this
      ensures match UpsertOne(old(rows), op, skipExisting)
              case Ok((after, outcome)) => rows == after && result == Ok(outcome)
              case Err(error) => rows == old(rows) && result == Err(error)
    {
      var existing := op.key in rows;
      if existing && skipExisting {
        return Ok(Skipped);
      }
      if existing {
        var row := rows[op.key];
        rows := rows[op.key := row.(fields := row.fields + op.update)];
        return Ok(Updated);
      }
      if IdTaken(rows, op.create.id) {
        return Err(UniqueViolation);
      }
      rows := rows[op.key := op.create];
      return Ok(Created);
    }

    /** The importer's loop over one file. On success every row is counted once, and exactly the
        keys that were not in the table count as created. */
    method UpsertRows(ops: seq<Upsert<K>>, skipExisting: bool)
      returns (error: Option<DbError>, counters: Counters)
      modifies this
      ensures match UpsertAll(old(rows), ops, skipExisting)
              case Ok(after) => error == None && rows == after
              case Err(e) => error == Some(e) && StoppedAt(old(rows), ops, skipExisting, rows, e)
      ensures error.None? ==> counters.created + counters.updated + counters.skipped == |ops|
      ensures error.None? ==> counters.created == |NewKeys(old(rows), ops)|
      ensures error.None? ==> if skipExisting then counters.updated == 0 else counters.skipped == 0
    {
      ghost var table := rows;
      counters := Counters(0, 0, 0);
      for n := 0 to |ops|
        invariant UpsertAll(table, ops[..n], skipExisting) == Ok(rows)
        invariant counters.created + counters.updated + counters.skipped == n
        invariant |rows| == |table| + counters.created
        invariant if skipExisting then counters.updated == 0 else counters.skipped == 0
      {
        UpsertNext(table, ops, n, skipExisting, rows);
        if UpsertOne(rows, ops[n], skipExisting).Ok? {
          OutcomeOfOne(rows, ops[n], skipExisting);
        }
        var outcome := UpsertWithWhere(ops[n], skipExisting);
        if outcome.Err? {
          return Some(outcome.error), counters;
        }
        counters := Count(counters, outcome.value);
      }
      assert ops[..|ops|] == ops;
      UpsertGrowth(table, ops, skipExisting);
      return None, counters;
    }
  }

  lemma {:induction false} UpsertFailsForGood<K>(table: KeyedTable<K>, ops: seq<Upsert<K>>, n: nat, skipExisting: bool)
    requires n <= |ops| && UpsertAll(table, ops[..n], skipExisting).Err?
    ensures UpsertAll(table, ops, skipExisting) == UpsertAll(table, ops[..n], skipExisting)
    decreases |ops| - n
  {
    if n < |ops| {
      assert ops[..n + 1][..n] == ops[..n];
      UpsertFailsForGood(table, ops, n + 1, skipExisting);
    } else {
      assert ops[..n] == ops;
    }
  }

  // ---------- When a file of upserts goes through ----------

  /** The upsert is the first one of a key that the table does not hold: the one that creates. */
  predicate Creates<K(==)>(table: KeyedTable<K>, ops: seq<Upsert<K>>, i: nat)
    requires i < |ops|
  {
    ops[i].key !in table && forall j :: 0 <= j < i ==> ops[j].key != ops[i].key
  }

  /** An upsert before the i-th creates a row with this id. */
  predicate IdCreatedBefore<K(==)>(table: KeyedTable<K>, ops: seq<Upsert<K>>, i: nat, id: string)
    requires i <= |ops|
  {
    exists j :: 0 <= j < i && Creates(table, ops, j) && ops[j].create.id == id
  }

  /** If the upsert creates, no stored row and no row created before has its id. */
  predicate IdFree<K(==)>(table: KeyedTable<K>, ops: seq<Upsert<K>>, i: nat)
    requires i < |ops|
  {
    Creates(table, ops, i) ==>
      && (forall k :: k in table ==> table[k].id != ops[i].create.id)
      && !IdCreatedBefore(table, ops, i, ops[i].create.id)
  }

  predicate AllIdsFree<K(==)>(table: KeyedTable<K>, ops: seq<Upsert<K>>) {
    forall i :: 0 <= i < |ops| ==> IdFree(table, ops, i)
  }

  lemma {:induction false} KeysOfExactly<K>(ops: seq<Upsert<K>>, key: K)
    ensures key in KeysOf(ops) <==> exists j :: 0 <= j < |ops| && ops[j].key == key
  {
    if ops != [] {
      var n := |ops| - 1;
      KeysOfExactly(ops[..n], key);
      assert forall j :: 0 <= j < n ==> ops[..n][j] == ops[j];
      assert ops[n].key == key ==> key in KeysOf(ops);
    }
  }

  lemma CreatesInPrefix<K>(table: KeyedTable<K>, ops: seq<Upsert<K>>, n: nat, i: nat)
    requires i < n <= |ops|
    ensures Creates(table, ops[..n], i) <==> Creates(table, ops, i)
  {
    assert forall j :: 0 <= j <= i ==> ops[..n][j] == ops[j];
  }

  lemma CreatedInPrefix<K>(table: KeyedTable<K>, ops: seq<Upsert<K>>, n: nat, i: nat, id: string)
    requires i <= n <= |ops|
    ensures IdCreatedBefore(table, ops[..n], i, id) <==> IdCreatedBefore(table, ops, i, id)
  {
    forall j | 0 <= j < i ensures Creates(table, ops[..n], j) <==> Creates(table, ops, j) {
      CreatesInPrefix(table, ops, n, j);
    }
    if j :| 0 <= j < i && Creates(table, ops, j) && ops[j].create.id == id {
      assert Creates(table, ops[..n], j) && ops[..n][j].create.id == id;
    }
    if j :| 0 <= j < i && Creates(table, ops[..n], j) && ops[..n][j].create.id == id {
      assert Creates(table, ops, j) && ops[j].create.id == id;
    }
  }

  lemma CreatedSnoc<K>(table: KeyedTable<K>, ops: seq<Upsert<K>>, n: nat, id: string)
    requires n < |ops|
    ensures IdCreatedBefore(table, ops, n + 1, id) <==>
              IdCreatedBefore(table, ops, n, id) || (Creates(table, ops, n) && ops[n].create.id == id)
  {
  }

  lemma TakenAfterOne<K>(table: KeyedTable<K>, op: Upsert<K>, skipExisting: bool, id: string)
    requires UpsertOne(table, op, skipExisting).Ok?
    ensures IdTaken(UpsertOne(table, op, skipExisting).value.0, id) <==>
              IdTaken(table, id) || (op.key !in table && op.create.id == id)
  {
    var after := UpsertOne(table, op, skipExisting).value.0;
    assert forall k :: k in table ==> k in after && after[k].id == table[k].id;
    assert op.key in after;
  }

  /** Updates leave ids alone: what is taken was taken before, or created since. */
  lemma {:induction false} TakenAfterAll<K>(table: KeyedTable<K>, ops: seq<Upsert<K>>, skipExisting: bool, id: string)
    requires UpsertAll(table, ops, skipExisting).Ok?
    ensures IdTaken(UpsertAll(table, ops, skipExisting).value, id) <==>
              IdTaken(table, id) || IdCreatedBefore(table, ops, |ops|, id)
  {
    if ops != [] {
      var n := |ops| - 1;
      TakenAfterAll(table, ops[..n], skipExisting, id);
      TakenAfterOne(UpsertAll(table, ops[..n], skipExisting).value, ops[n], skipExisting, id);
      CreatedInPrefix(table, ops, n, n, id);
      CreatedSnoc(table, ops, n, id);
      LastCreates(table, ops, skipExisting);
    }
  }

  lemma LastCreates<K>(table: KeyedTable<K>, ops: seq<Upsert<K>>, skipExisting: bool)
    requires ops != [] && UpsertAll(table, ops[..|ops| - 1], skipExisting).Ok?
    ensures ops[|ops| - 1].key !in UpsertAll(table, ops[..|ops| - 1], skipExisting).value <==>
              Creates(table, ops, |ops| - 1)
  {
    var n := |ops| - 1;
    UpsertKeys(table, ops[..n], skipExisting);
    KeysOfExactly(ops[..n], ops[n].key);
    assert forall j :: 0 <= j < n ==> ops[..n][j] == ops[j];
  }

  lemma AllIdsFreeSnoc<K>(table: KeyedTable<K>, ops: seq<Upsert<K>>)
    requires ops != []
    ensures var n := |ops| - 1;
            AllIdsFree(table, ops) <==> AllIdsFree(table, ops[..n]) && IdFree(table, ops, n)
  {
    var n := |ops| - 1;
    forall i | 0 <= i < n ensures IdFree(table, ops[..n], i) <==> IdFree(table, ops, i) {
      CreatesInPrefix(table, ops, n, i);
      CreatedInPrefix(table, ops, n, i, ops[i].create.id);
      assert ops[..n][i] == ops[i];
    }
  }

  /** The exact condition, on the table and the file, in either mode: every id that an upsert
      creates is new, neither stored nor created by an earlier one. */
  lemma {:induction false} UpsertsSucceedIff<K>(table: KeyedTable<K>, ops: seq<Upsert<K>>, skipExisting: bool)
    ensures UpsertAll(table, ops, skipExisting).Ok? <==> AllIdsFree(table, ops)
  {
    if ops != [] {
      var n := |ops| - 1;
      UpsertsSucceedIff(table, ops[..n], skipExisting);
      AllIdsFreeSnoc(table, ops);
      if UpsertAll(table, ops[..n], skipExisting).Ok? {
        LastCreates(table, ops, skipExisting);
        TakenAfterAll(table, ops[..n], skipExisting, ops[n].create.id);
        CreatedInPrefix(table, ops, n, n, ops[n].create.id);
      }
    }
  }

  // ---------- Closed form ----------

  /** The updates aimed at one key, later ones winning field by field. */
  function UpdatesFor<K(==)>(key: K, ops: seq<Upsert<K>>): Fields {
    if ops == [] then map[]
    else
      var last := ops[|ops| - 1];
      UpdatesFor(key, ops[..|ops| - 1]) + if last.key == key then last.update else map[]
  }

  /** The first upsert aimed at a key. */
  function FirstFor<K(==)>(key: K, ops: seq<Upsert<K>>): (op: Upsert<K>)
    requires key in KeysOf(ops)
    ensures op.key == key
  {
    var init := ops[..|ops| - 1];
    if key in KeysOf(init) then FirstFor(key, init) else ops[|ops| - 1]
  }

  /** The updates aimed at one key after its first upsert. */
  function LaterUpdates<K(==)>(key: K, ops: seq<Upsert<K>>): Fields
    requires key in KeysOf(ops)
  {
    var init, last := ops[..|ops| - 1], ops[|ops| - 1];
    if key in KeysOf(init)
    then LaterUpdates(key, init) + if last.key == key then last.update else map[]
    else map[]
  }

  /** What is laid over the row a key starts from: for a new key the first upsert only creates. */
  function Overlay<K(==)>(table: KeyedTable<K>, key: K, ops: seq<Upsert<K>>): Fields
    requires key in table || key in KeysOf(ops)
  {
    if key in table then UpdatesFor(key, ops) else LaterUpdates(key, ops)
  }

  /** The row a key starts from: the stored one, else the first one created for it. */
  function StartingRow<K(==)>(table: KeyedTable<K>, key: K, ops: seq<Upsert<K>>): StoredRow
    requires key in table || key in KeysOf(ops)
  {
    if key in table then table[key] else FirstFor(key, ops).create
  }

  lemma {:induction false} NoUpdatesFor<K>(key: K, ops: seq<Upsert<K>>)
    requires key !in KeysOf(ops)
    ensures UpdatesFor(key, ops) == map[]
  {
    if ops != [] {
      NoUpdatesFor(key, ops[..|ops| - 1]);
    }
  }

  lemma OverlayAssociates(a: Fields, b: Fields, c: Fields)
    ensures a + (b + c) == (a + b) + c
  {
  }

  lemma OverlayNothing(a: Fields)
    ensures a + map[] == a && map[] + a == a
  {
  }

  /** What a whole file of upserts leaves behind: each key keeps the id it started with, and
      its fields are the starting ones overlaid with the updates aimed at it, in order. */
  lemma {:induction false} UpsertClosedForm<K>(table: KeyedTable<K>, ops: seq<Upsert<K>>, key: K)
    requires UpsertAll(table, ops, false).Ok?
    requires key in table || key in KeysOf(ops)
    ensures key in UpsertAll(table, ops, false).value
    ensures var start := StartingRow(table, key, ops);
            UpsertAll(table, ops, false).value[key] == StoredRow(start.id, start.fields + Overlay(table, key, ops))
  {
    if ops == [] {
      OverlayNothing(table[key].fields);
    } else {
      var init, last := ops[..|ops| - 1], ops[|ops| - 1];
      UpsertKeys(table, init, false);
      if key in table || key in KeysOf(init) {
        UpsertClosedForm(table, init, key);
        OverlayAssociates(StartingRow(table, key, ops).fields, Overlay(table, key, init), last.update);
        OverlayNothing(Overlay(table, key, init));
      } else {
        OverlayNothing(last.create.fields);
      }
    }
  }

  /** All the updates of a key are the first one overlaid with the later ones. */
  lemma {:induction false} FirstThenLater<K>(key: K, ops: seq<Upsert<K>>)
    requires key in KeysOf(ops)
    ensures UpdatesFor(key, ops) == FirstFor(key, ops).update + LaterUpdates(key, ops)
  {
    var init, last := ops[..|ops| - 1], ops[|ops| - 1];
    if key in KeysOf(init) {
      FirstThenLater(key, init);
      OverlayAssociates(FirstFor(key, init).update, LaterUpdates(key, init),
                        if last.key == key then last.update else map[]);
    } else {
      NoUpdatesFor(key, init);
      OverlayNothing(last.update);
    }
  }

  /** In skip mode nothing that was there changes, and new keys get their first creation. */
  lemma {:induction false} SkipModeClosedForm<K>(table: KeyedTable<K>, ops: seq<Upsert<K>>, key: K)
    requires UpsertAll(table, ops, true).Ok?
    requires key in table || key in KeysOf(ops)
    ensures key in UpsertAll(table, ops, true).value
    ensures UpsertAll(table, ops, true).value[key] == StartingRow(table, key, ops)
  {
    if ops != [] {
      var init := ops[..|ops| - 1];
      UpsertKeys(table, init, true);
      if key in table || key in KeysOf(init) {
        SkipModeClosedForm(table, init, key);
      }
    }
  }

  // ---------- Running the same file again ----------

  /** When every key is present nothing is created, so nothing can fail. */
  lemma {:induction false} AllPresentSucceeds<K>(table: KeyedTable<K>, ops: seq<Upsert<K>>, skipExisting: bool)
    requires KeysOf(ops) <= table.Keys
    ensures UpsertAll(table, ops, skipExisting).Ok?
  {
    if ops != [] {
      AllPresentSucceeds(table, ops[..|ops| - 1], skipExisting);
      UpsertKeys(table, ops[..|ops| - 1], skipExisting);
    }
  }

  /** Each field of the update that no later update overwrites is created with that value. */
  predicate UpdateIsCreated<K>(first: Upsert<K>, later: Fields) {
    forall f :: f in first.update && f !in later ==>
      f in first.create.fields && first.create.fields[f] == first.update[f]
  }

  /** What the file must satisfy for a second run to change nothing: for every key that is new to
      the table, the update of its first upsert is created already, or overwritten later. */
  predicate FirstUpdatesAreCreated<K>(table: KeyedTable<K>, ops: seq<Upsert<K>>) {
    forall key :: key in NewKeys(table, ops) ==> UpdateIsCreated(FirstFor(key, ops), LaterUpdates(key, ops))
  }

  lemma OverlayTwice(created: Fields, first: Fields, later: Fields)
    ensures (created + later) + (first + later) == created + later <==>
              forall f :: f in first && f !in later ==> f in created && created[f] == first[f]
  {
    var once, twice := created + later, (created + later) + (first + later);
    if twice == once {
      forall f | f in first && f !in later ensures f in created && created[f] == first[f] {
        assert f in twice && twice[f] == first[f];
      }
    }
  }

  /** One key under a second run of updates. */
  lemma SecondRunKeepsRowIff<K>(table: KeyedTable<K>, ops: seq<Upsert<K>>, key: K)
    requires UpsertAll(table, ops, false).Ok?
    requires UpsertAll(UpsertAll(table, ops, false).value, ops, false).Ok?
    requires key in UpsertAll(table, ops, false).value
    ensures var once := UpsertAll(table, ops, false).value;
            var twice := UpsertAll(once, ops, false).value;
            && key in twice
            && (twice[key] == once[key] <==>
                  key in NewKeys(table, ops) ==> UpdateIsCreated(FirstFor(key, ops), LaterUpdates(key, ops)))
  {
    var once := UpsertAll(table, ops, false).value;
    UpsertKeys(table, ops, false);
    UpsertClosedForm(table, ops, key);
    UpsertClosedForm(once, ops, key);
    var start, u := StartingRow(table, key, ops), UpdatesFor(key, ops);
    if key in table {
      assert (start.fields + u) + u == start.fields + u;
    } else {
      FirstThenLater(key, ops);
      OverlayTwice(start.fields, FirstFor(key, ops).update, LaterUpdates(key, ops));
    }
  }

  lemma SecondSkipRun<K>(table: KeyedTable<K>, ops: seq<Upsert<K>>)
    requires UpsertAll(table, ops, true).Ok? && KeysOf(ops) <= table.Keys
    ensures UpsertAll(table, ops, true).value == table
  {
    var after := UpsertAll(table, ops, true).value;
    UpsertKeys(table, ops, true);
    forall key | key in table ensures after[key] == table[key] {
      SkipModeClosedForm(table, ops, key);
    }
    assert after.Keys == table.Keys;
  }

  lemma SecondUpdateRun<K>(table: KeyedTable<K>, ops: seq<Upsert<K>>)
    requires UpsertAll(table, ops, false).Ok?
    requires UpsertAll(UpsertAll(table, ops, false).value, ops, false).Ok?
    ensures var once := UpsertAll(table, ops, false).value;
            UpsertAll(once, ops, false).value == once <==> FirstUpdatesAreCreated(table, ops)
  {
    var once := UpsertAll(table, ops, false).value;
    var twice := UpsertAll(once, ops, false).value;
    UpsertKeys(table, ops, false);
    UpsertKeys(once, ops, false);
    assert twice.Keys == once.Keys;
    forall key | key in once
      ensures twice[key] == once[key] <==>
                key in NewKeys(table, ops) ==> UpdateIsCreated(FirstFor(key, ops), LaterUpdates(key, ops))
    {
      SecondRunKeepsRowIff(table, ops, key);
    }
    assert forall key :: key in NewKeys(table, ops) ==> key in once;
    assert twice == once <==> forall key :: key in once ==> twice[key] == once[key];
  }

  /** Idempotence with its exact condition. After a run has succeeded, running the same upserts
      again succeeds and creates nothing. In skip mode it also changes nothing, whatever the
      file; when updating, exactly when the first updates of the new keys are created. */
  lemma {:induction false} UpsertsAreIdempotentIff<K>(table: KeyedTable<K>, ops: seq<Upsert<K>>, skipExisting: bool)
    requires UpsertAll(table, ops, skipExisting).Ok?
    ensures var once := UpsertAll(table, ops, skipExisting).value;
            && NewKeys(once, ops) == {}
            && UpsertAll(once, ops, skipExisting).Ok?
            && (UpsertAll(once, ops, skipExisting) == Ok(once) <==> skipExisting || FirstUpdatesAreCreated(table, ops))
  {
    var once := UpsertAll(table, ops, skipExisting).value;
    UpsertKeys(table, ops, skipExisting);
    AllPresentSucceeds(once, ops, skipExisting);
    if skipExisting {
      SecondSkipRun(once, ops);
    } else {
      SecondUpdateRun(table, ops);
    }
  }

  /** From the second run on nothing changes any more, whatever the file. */
  lemma {:induction false} ThirdRunChangesNothing<K>(table: KeyedTable<K>, ops: seq<Upsert<K>>, skipExisting: bool)
    requires UpsertAll(table, ops, skipExisting).Ok?
    ensures var once := UpsertAll(table, ops, skipExisting).value;
            && UpsertAll(once, ops, skipExisting).Ok?
            && var twice := UpsertAll(once, ops, skipExisting).value;
            UpsertAll(twice, ops, skipExisting) == Ok(twice)
  {
    UpsertsAreIdempotentIff(table, ops, skipExisting);
    UpsertsAreIdempotentIff(UpsertAll(table, ops, skipExisting).value, ops, skipExisting);
  }

  /** Each upsert creates all that it would update, with the same values: the form of the
      importer's calls. */
  predicate Coherent<K>(ops: seq<Upsert<K>>) {
    forall i :: 0 <= i < |ops| ==> UpdateIsCreated(ops[i], map[])
  }

  lemma {:induction false} FirstIsAmong<K>(key: K, ops: seq<Upsert<K>>)
    requires key in KeysOf(ops)
    ensures exists i :: 0 <= i < |ops| && ops[i] == FirstFor(key, ops)
  {
    var n := |ops| - 1;
    if key in KeysOf(ops[..n]) {
      FirstIsAmong(key, ops[..n]);
      var i :| 0 <= i < n && ops[..n][i] == FirstFor(key, ops[..n]);
      assert ops[i] == FirstFor(key, ops);
    }
  }

  /** Coherent files are idempotent on every table, repeated keys included. */
  lemma {:induction false} CoherentUpsertsAreIdempotent<K>(
    table: KeyedTable<K>, ops: seq<Upsert<K>>, skipExisting: bool)
    requires Coherent(ops) && UpsertAll(table, ops, skipExisting).Ok?
    ensures var once := UpsertAll(table, ops, skipExisting);
            UpsertAll(once.value, ops, skipExisting) == once
  {
    forall key | key in NewKeys(table, ops)
      ensures UpdateIsCreated(FirstFor(key, ops), LaterUpdates(key, ops))
    {
      FirstIsAmong(key, ops);
      var i :| 0 <= i < |ops| && ops[i] == FirstFor(key, ops);
      assert UpdateIsCreated(ops[i], map[]);
    }
    UpsertsAreIdempotentIff(table, ops, skipExisting);
  }

  /** Existing rows keep their ids, and in skip mode they keep everything. */
  lemma {:induction false} ExistingRowsAreKept<K>(table: KeyedTable<K>, ops: seq<Upsert<K>>, skipExisting: bool, key: K)
    requires UpsertAll(table, ops, skipExisting).Ok? && key in table
    ensures key in UpsertAll(table, ops, skipExisting).value
    ensures UpsertAll(table, ops, skipExisting).value[key].id == table[key].id
    ensures skipExisting ==> UpsertAll(table, ops, skipExisting).value[key] == table[key]
  {
    if skipExisting {
      SkipModeClosedForm(table, ops, key);
    } else {
      UpsertClosedForm(table, ops, key);
    }
  }

  /** A single upsert of a new key shows the difference: the second run brings in every field
      that it updates to a value it was not created with. */
  lemma {:induction false} OneStaleFieldIsNotIdempotent<K>(table: KeyedTable<K>, op: Upsert<K>, f: string)
    requires op.key !in table && !IdTaken(table, op.create.id)
    requires f in op.update && (f in op.create.fields ==> op.create.fields[f] != op.update[f])
    ensures var once := UpsertAll(table, [op], false);
            once.Ok? && UpsertAll(once.value, [op], false) != once
  {
    assert [op][..0] == [];
    assert op.key in NewKeys(table, [op]) && FirstFor(op.key, [op]) == op;
    assert LaterUpdates(op.key, [op]) == map[];
    assert !UpdateIsCreated(op, map[]);
    UpsertsAreIdempotentIff(table, [op], false);
  }

  // ---------- Upserts by row id ----------

  /** The simpler form: the key is the row id, and the same data is created or updated. */
  function ById(id: string, data: Fields): Upsert<string> {
    Upsert(id, StoredRow(id, data), data)
  }

  predicate KeyedById(table: KeyedTable<string>) {
    forall k :: k in table ==> table[k].id == k
  }

  predicate AllById(ops: seq<Upsert<string>>) {
    forall i :: 0 <= i < |ops| ==> ops[i] == ById(ops[i].key, ops[i].update)
  }

  /** Upserts by id never fail, keep every id equal to its key, and are coherent, so all of the
      laws above apply to them without further conditions. */
  lemma {:induction false} ByIdAlwaysSucceeds(table: KeyedTable<string>, ops: seq<Upsert<string>>, skipExisting: bool)
    requires KeyedById(table) && AllById(ops)
    ensures Coherent(ops)
    ensures UpsertAll(table, ops, skipExisting).Ok?
    ensures KeyedById(UpsertAll(table, ops, skipExisting).value)
  {
    if ops != [] {
      var n := |ops| - 1;
      assert forall i :: 0 <= i < n ==> ops[..n][i] == ops[i];
      ByIdAlwaysSucceeds(table, ops[..n], skipExisting);
      assert ops[n] == ById(ops[n].key, ops[n].update);
    }
  }
}
