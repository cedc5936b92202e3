/** The secondary-index entries agree with the stored rows: the invariant, and
    INSERT and DELETE. */
module DbIndexes {
  import opened Wrappers
  import opened DbTypes
  import opened KeyOrder
  import opened DbModel
  import opened DbTransactions

  // ---- The invariant ----

  ghost predicate Issued(rowKey: string, nextId: nat) {
    exists i: nat :: i < nextId && rowKey == Decimal(i)
  }

  /** A row lies under its primary key, or under an id the table has issued. */
  ghost predicate KeyOk(schema: Schema, rowKey: string, row: Row) {
    match schema.primaryKey
    case Some(pk) => pk in row && Str(row[pk]) == rowKey
    case None => Issued(rowKey, schema.nextId)
  }

  ghost predicate RowsOk(s: Store, table: string, schema: Schema) {
    forall r :: RowKey(table, r) in s ==> s[RowKey(table, r)].RowData? && KeyOk(schema, r, RowAt(s, table, r))
  }

  predicate Holds(s: Store, table: string, schema: Schema, col: string, value: string, r: string) {
    && RowKey(table, r) in s && col in schema.indexes && col in RowAt(s, table, r)
    && Str(RowAt(s, table, r)[col]) == value
  }

  /** The index entries are exactly the (column, str(value), row) triples of the stored rows. */
  ghost predicate IndexAgrees(s: Store, table: string, schema: Schema) {
    forall col, value, r ::
      && (IdxKey(table, col, value, r) in s <==> Holds(s, table, schema, col, value, r))
      && (IdxKey(table, col, value, r) in s ==> s[IdxKey(table, col, value, r)] == Marker)
  }

  /** No two rows share the value of a UNIQUE column. */
  ghost predicate UniqueHolds(s: Store, table: string, schema: Schema) {
    forall u, a, b :: u in schema.unique && a != b && RowKey(table, a) in s && RowKey(table, b) in s
                      && u in RowAt(s, table, a) && u in RowAt(s, table, b) ==>
                        Str(RowAt(s, table, a)[u]) != Str(RowAt(s, table, b)[u])
  }

  /** UNIQUE columns are indexed, as create_table sets them up. */
  predicate WellFormed(schema: Schema) {
    forall u :: u in schema.unique ==> u in schema.indexes
  }

  ghost predicate TableOk(s: Store, table: string, schema: Schema) {
    && SchemaKey(table) in s && s[SchemaKey(table)] == SchemaData(schema) && WellFormed(schema)
    && RowsOk(s, table, schema) && IndexAgrees(s, table, schema) && UniqueHolds(s, table, schema)
  }

  // ---- Adding and removing a row together with its entries ----

  function EntryKeys(table: string, row: Row, rowKey: string, cols: seq<string>): set<Key> {
    set c | c in cols && c in row :: IdxKey(table, c, Str(row[c]), rowKey)
  }

  function Marked(keys: set<Key>): Store {
    map k | k in keys :: Marker
  }

  function WithRow(s: Store, table: string, schema: Schema, r: string, row: Row): Store {
    s[RowKey(table, r) := RowData(row)] + Marked(EntryKeys(table, row, r, schema.indexes))
  }

  function WithoutRow(s: Store, table: string, schema: Schema, r: string): Store {
    s - {RowKey(table, r)} - EntryKeys(table, RowAt(s, table, r), r, schema.indexes)
  }

  lemma {:induction false} AddEntriesStore(db: Db, table: string, row: Row, r: string, cols: seq<string>)
    requires Autocommit(db)
    ensures AddEntries(db, table, row, r, cols) == db.(store := db.store + Marked(EntryKeys(table, row, r, cols)))
    decreases |cols|
  {
    hide Str, Marked, EntryKeys;
    if cols == [] {
      assert db.store + Marked(EntryKeys(table, row, r, cols)) == db.store by { NoEntries(db.store, table, row, r); }
    } else {
      var rest := EntryKeys(table, row, r, cols[1..]);
      EntryKeysSplit(table, row, r, cols);
      if cols[0] in row {
        var k := IdxKey(table, cols[0], Str(row[cols[0]]), r);
        AddEntriesStore(Put(db, k, Marker), table, row, r, cols[1..]);
        MarkedSplit(db.store, k, rest);
      } else {
        AddEntriesStore(db, table, row, r, cols[1..]);
        assert {} + rest == rest;
      }
    }
  }

  lemma NoEntries(s: Store, table: string, row: Row, r: string)
    ensures s + Marked(EntryKeys(table, row, r, [])) == s
  {
  }

  lemma MarkedSplit(s: Store, k: Key, rest: set<Key>)
    ensures s[k := Marker] + Marked(rest) == s + Marked({k} + rest)
  {
  }

  lemma EntryKeysSplit(table: string, row: Row, r: string, cols: seq<string>)
    requires cols != []
    ensures EntryKeys(table, row, r, cols) ==
            (if cols[0] in row then {IdxKey(table, cols[0], Str(row[cols[0]]), r)} else {})
            + EntryKeys(table, row, r, cols[1..])
  {
    assert forall c :: c in cols <==> c == cols[0] || c in cols[1..];
  }

  lemma {:induction false} RemoveEntriesStore(db: Db, table: string, row: Row, r: string, cols: seq<string>)
    requires Autocommit(db)
    ensures RemoveEntries(db, table, row, r, cols) == db.(store := db.store - EntryKeys(table, row, r, cols))
    decreases |cols|
  {
    if cols == [] {
      assert db.store - EntryKeys(table, row, r, cols) == db.store;
    } else {
      var rest := EntryKeys(table, row, r, cols[1..]);
      var db1 := if cols[0] in row then Delete(db, IdxKey(table, cols[0], Str(row[cols[0]]), r)) else db;
      RemoveEntriesStore(db1, table, row, r, cols[1..]);
      EntryKeysSplit(table, row, r, cols);
      assert db1.store - rest == db.store - EntryKeys(table, row, r, cols);
    }
  }

  lemma WithoutRowKeeps(s: Store, table: string, schema: Schema, r: string)
    requires TableOk(s, table, schema)
    ensures TableOk(WithoutRow(s, table, schema, r), table, schema)
  {
    var s' := WithoutRow(s, table, schema, r);
    assert forall q :: RowKey(table, q) in s' ==>
             q != r && RowKey(table, q) in s && RowAt(s', table, q) == RowAt(s, table, q);
    forall col, value, q
      ensures IdxKey(table, col, value, q) in s' <==> Holds(s', table, schema, col, value, q)
    {
      assert IdxKey(table, col, value, q) in s <==> Holds(s, table, schema, col, value, q);
    }
  }

  /** No row but `r` itself has one of the row's UNIQUE values. */
  ghost predicate Free(s: Store, table: string, schema: Schema, r: string, row: Row) {
    forall u, q :: u in schema.unique && u in row && q != r && RowKey(table, q) in s && u in RowAt(s, table, q) ==>
      Str(RowAt(s, table, q)[u]) != Str(row[u])
  }

  lemma WithRowKeeps(s: Store, table: string, schema: Schema, r: string, row: Row)
    requires TableOk(s, table, schema) && RowKey(table, r) !in s
    requires KeyOk(schema, r, row) && Free(s, table, schema, r, row)
    ensures TableOk(WithRow(s, table, schema, r, row), table, schema)
  {
    var s' := WithRow(s, table, schema, r, row);
    assert RowAt(s', table, r) == row;
    assert forall q :: q != r && RowKey(table, q) in s' ==>
             RowKey(table, q) in s && RowAt(s', table, q) == RowAt(s, table, q);
    forall col, value, q
      ensures IdxKey(table, col, value, q) in s' <==> Holds(s', table, schema, col, value, q)
    {
      assert IdxKey(table, col, value, q) in s <==> Holds(s, table, schema, col, value, q);
    }
  }

  lemma {:induction false} CheckUniqueMeans(db: Db, table: string, row: Row, r: string, unique: seq<string>)
    ensures CheckUnique(db, table, row, r, unique).None? ==>
              forall u :: u in unique && u in row ==> !Taken(db, table, u, Str(row[u]), r)
    ensures var e := CheckUnique(db, table, row, r, unique);
            e.Some? ==> e.value.DuplicateUnique? && e.value.col in unique && e.value.col in row
                        && e.value.value == Str(row[e.value.col]) && Taken(db, table, e.value.col, e.value.value, r)
  {
    if unique != [] {
      CheckUniqueMeans(db, table, row, r, unique[1..]);
    }
  }

  /** An entry of a UNIQUE column under another row is what makes a value taken. */
  lemma TakenMeans(db: Db, table: string, col: string, value: string, r: string)
    requires Autocommit(db)
    ensures Taken(db, table, col, value, r) <==> exists q :: q != r && IdxKey(table, col, value, q) in db.store
  {
    var rows := EntryRows(db.store.Keys, table, col, value);
    assert EntryRows(db.changes.Keys, table, col, value) == {};
    if Taken(db, table, col, value, r) {
      var q :| q in rows - {r};
      assert IdxKey(table, col, value, q) in db.store;
    }
    if q :| q != r && IdxKey(table, col, value, q) in db.store {
      assert IdxKey(table, col, value, q) in db.store.Keys;
      assert q in rows - {r};
    }
  }

  /** Passing the UNIQUE check over entries that include those of `s` means no other row of `s` has the values. */
  lemma CheckedIsFree(db: Db, s: Store, table: string, schema: Schema, row: Row, r: string)
    requires Autocommit(db) && WellFormed(schema) && IndexAgrees(s, table, schema)
    requires CheckUnique(db, table, row, r, schema.unique).None?
    requires forall col, value, q :: IdxKey(table, col, value, q) in s ==> IdxKey(table, col, value, q) in db.store
    ensures Free(s, table, schema, r, row)
  {
    CheckUniqueMeans(db, table, row, r, schema.unique);
    forall u, q | u in schema.unique && u in row && q != r && RowKey(table, q) in s && u in RowAt(s, table, q)
      ensures Str(RowAt(s, table, q)[u]) != Str(row[u])
    {
      TakenMeans(db, table, u, Str(row[u]), r);
      assert Holds(s, table, schema, u, Str(RowAt(s, table, q)[u]), q);
      assert IdxKey(table, u, Str(RowAt(s, table, q)[u]), q) in s;
    }
  }

  /** The UNIQUE check passes exactly when no row under another key has one of the row's UNIQUE values. */
  lemma CheckIffFree(db: Db, s: Store, table: string, schema: Schema, row: Row, r: string)
    requires Autocommit(db) && WellFormed(schema) && IndexAgrees(s, table, schema)
    requires forall col, value, q :: IdxKey(table, col, value, q) in s <==> IdxKey(table, col, value, q) in db.store
    ensures CheckUnique(db, table, row, r, schema.unique).None? <==> Free(s, table, schema, r, row)
  {
    hide Free;
    CheckUniqueMeans(db, table, row, r, schema.unique);
    var e := CheckUnique(db, table, row, r, schema.unique);
    if e.None? {
      CheckedIsFree(db, s, table, schema, row, r);
    } else {
      TakenMeans(db, table, e.value.col, e.value.value, r);
      var q :| q != r && IdxKey(table, e.value.col, e.value.value, q) in db.store;
      assert Holds(s, table, schema, e.value.col, e.value.value, q);
      NotFree(s, table, schema, row, r, e.value.col, q);
    }
  }

  lemma NotFree(s: Store, table: string, schema: Schema, row: Row, r: string, u: string, q: string)
    requires u in schema.unique && u in row && q != r && RowKey(table, q) in s && u in RowAt(s, table, q)
    requires Str(RowAt(s, table, q)[u]) == Str(row[u])
    ensures !Free(s, table, schema, r, row)
  {
  }

  /** Only keys of `table` differ. */
  ghost predicate SameElsewhere(s: Store, s': Store, table: string) {
    forall k: Key :: k.table != table ==> (k in s <==> k in s') && (k in s ==> s[k] == s'[k])
  }

  lemma WithRowFrame(s: Store, table: string, schema: Schema, r: string, row: Row)
    ensures SameElsewhere(s, WithRow(s, table, schema, r, row), table)
    ensures forall q :: q != r && RowKey(table, q) in s ==>
              RowKey(table, q) in WithRow(s, table, schema, r, row)
              && WithRow(s, table, schema, r, row)[RowKey(table, q)] == s[RowKey(table, q)]
  {
  }

  lemma WithoutRowFrame(s: Store, table: string, schema: Schema, r: string)
    ensures SameElsewhere(s, WithoutRow(s, table, schema, r), table)
    ensures forall q :: q != r && RowKey(table, q) in s ==>
              RowKey(table, q) in WithoutRow(s, table, schema, r)
              && WithoutRow(s, table, schema, r)[RowKey(table, q)] == s[RowKey(table, q)]
  {
  }

  // ---- INSERT ----

  /** The table has no primary key, or the statement supplies it. */
  predicate SuppliesKey(schema: Schema, data: Row) {
    schema.primaryKey.Some? ==> schema.primaryKey.value in data
  }

  lemma InsertRowKeeps(db: Db, table: string, schema: Schema, data: Row, r: string)
    requires Autocommit(db) && TableOk(db.store, table, schema) && RowKey(table, r) !in db.store
    requires KeyOk(schema, r, NewRow(data, r))
    ensures var (db', response) := InsertRow(db, table, schema, data, r);
            && Autocommit(db')
            && TableOk(db'.store, table, schema)
            && SameElsewhere(db.store, db'.store, table)
            && (response == Inserted ==> db'.store == WithRow(db.store, table, schema, r, NewRow(data, r)))
            && (response != Inserted ==> response.DuplicateUnique? && db' == db)
  {
    hide TableOk, NewRow, CheckUnique, AddEntries, KeyOk, Free;
    var row := NewRow(data, r);
    CheckUniqueMeans(db, table, row, r, schema.unique);
    if CheckUnique(db, table, row, r, schema.unique).None? {
      TableParts(db.store, table, schema);
      CheckedIsFree(db, db.store, table, schema, row, r);
      AddEntriesStore(Put(db, RowKey(table, r), RowData(row)), table, row, r, schema.indexes);
      WithRowKeeps(db.store, table, schema, r, row);
      WithRowFrame(db.store, table, schema, r, row);
    }
  }

  lemma TableParts(s: Store, table: string, schema: Schema)
    requires TableOk(s, table, schema)
    ensures WellFormed(schema) && IndexAgrees(s, table, schema)
  {
  }

  lemma BumpKeeps(s: Store, table: string, schema: Schema)
    requires TableOk(s, table, schema) && schema.primaryKey.None?
    ensures var bumped := schema.(nextId := schema.nextId + 1);
            TableOk(s[SchemaKey(table) := SchemaData(bumped)], table, bumped)
  {
    var bumped := schema.(nextId := schema.nextId + 1);
    var s' := s[SchemaKey(table) := SchemaData(bumped)];
    forall r | RowKey(table, r) in s' ensures KeyOk(bumped, r, RowAt(s', table, r)) {
      assert KeyOk(schema, r, RowAt(s, table, r));
      var i: nat :| i < schema.nextId && r == Decimal(i);
      assert i < bumped.nextId && r == Decimal(i);
    }
    forall col, value, q
      ensures IdxKey(table, col, value, q) in s' <==> Holds(s', table, bumped, col, value, q)
    {
      assert IdxKey(table, col, value, q) in s <==> Holds(s, table, schema, col, value, q);
    }
    forall q ensures RowAt(s', table, q) == RowAt(s, table, q) {}
  }

  /** Storing a row uses the schema's columns only, not its id counter. */
  lemma SchemaIrrelevant(db: Db, table: string, schema: Schema, bumped: Schema, data: Row, r: string)
    requires bumped == schema.(nextId := bumped.nextId)
    ensures InsertRow(db, table, schema, data, r) == InsertRow(db, table, bumped, data, r)
  {
  }

  function SchemaAt(s: Store, table: string): Schema
    requires SchemaKey(table) in s && s[SchemaKey(table)].SchemaData?
  {
    s[SchemaKey(table)].schema
  }

  ghost predicate TableFine(s: Store, table: string) {
    SchemaKey(table) in s && s[SchemaKey(table)].SchemaData? && TableOk(s, table, SchemaAt(s, table))
  }

  /** The id counter of a table without a primary key has never been used as a row key. */
  lemma NextIdIsFresh(s: Store, table: string, schema: Schema)
    requires TableOk(s, table, schema) && schema.primaryKey.None?
    ensures RowKey(table, Decimal(schema.nextId)) !in s
  {
    var r := Decimal(schema.nextId);
    if RowKey(table, r) in s {
      assert KeyOk(schema, r, RowAt(s, table, r));
      var i: nat :| i < schema.nextId && r == Decimal(i);
      DecimalInjective(i, schema.nextId);
      assert false;
    }
  }

  /** Every INSERT into a table without a primary key, or that supplies the key, keeps agreement,
      whether it is accepted or rejected. */
  lemma InsertKeeps(db: Db, table: string, columns: seq<string>, values: seq<Value>)
    requires Autocommit(db) && TableFine(db.store, table)
    requires SuppliesKey(SchemaAt(db.store, table), Data(columns, values))
    ensures Autocommit(Insert(db, table, columns, values).0)
    ensures TableFine(Insert(db, table, columns, values).0.store, table)
    ensures SameElsewhere(db.store, Insert(db, table, columns, values).0.store, table)
  {
    hide InsertRow, RowsOk, IndexAgrees, UniqueHolds, WellFormed;
    var schema, data := SchemaAt(db.store, table), Data(columns, values);
    if schema.primaryKey.Some? {
      var pk := schema.primaryKey.value;
      var r := Str(data[pk]);
      if RowKey(table, r) !in db.store {
        InsertRowKeeps(db, table, schema, data, r);
      }
    } else {
      var bumped := schema.(nextId := schema.nextId + 1);
      var r := Decimal(schema.nextId);
      BumpKeeps(db.store, table, schema);
      NextIdIsFresh(db.store, table, schema);
      assert KeyOk(bumped, r, NewRow(data, r)) by {
        assert schema.nextId < bumped.nextId && r == Decimal(schema.nextId);
      }
      var db1 := Put(db, SchemaKey(table), SchemaData(bumped));
      InsertRowKeeps(db1, table, bumped, data, r);
      assert DbModel.Insert(db, table, columns, values) == InsertRow(db1, table, schema, data, r);
      SchemaIrrelevant(db1, table, schema, bumped, data, r);
    }
  }

  // ---- DELETE ----

  /** The rows still to be visited are as the snapshot has them. */
  ghost predicate Unvisited(s: Store, table: string, keys: seq<string>, snapshot: Store) {
    Sorted(keys) && forall i :: 0 <= i < |keys| ==>
      RowKey(table, keys[i]) in s && RowAt(s, table, keys[i]) == RowAt(snapshot, table, keys[i])
  }

  /** Deleting a row and its entries is removing both from the store. */
  lemma DeleteOneStore(db: Db, table: string, schema: Schema, r: string)
    requires Autocommit(db)
    ensures RemoveEntries(Delete(db, RowKey(table, r)), table, RowAt(db.store, table, r), r, schema.indexes)
            == db.(store := WithoutRow(db.store, table, schema, r))
  {
    hide RowAt, EntryKeys, RemoveEntries;
    RemoveEntriesStore(Delete(db, RowKey(table, r)), table, RowAt(db.store, table, r), r, schema.indexes);
  }

  lemma {:induction false} DeleteRowsKeeps(db: Db, table: string, schema: Schema, filter: Where,
                                           keys: seq<string>, snapshot: Store)
    requires Autocommit(db) && TableOk(db.store, table, schema) && Unvisited(db.store, table, keys, snapshot)
    ensures var db' := DeleteRows(db, table, schema, filter, keys, snapshot).0;
            Autocommit(db') && SameElsewhere(db.store, db'.store, table) && TableOk(db'.store, table, schema)
    decreases |keys|
  {
    hide TableOk, WithoutRow, RemoveEntries, Leq, Matches;
    if keys != [] {
      var row := RowAt(snapshot, table, keys[0]);
      if !Matches(row, filter) {
        DeleteRowsKeeps(db, table, schema, filter, keys[1..], snapshot);
      } else {
        DeleteOneStore(db, table, schema, keys[0]);
        WithoutRowKeeps(db.store, table, schema, keys[0]);
        WithoutRowFrame(db.store, table, schema, keys[0]);
        var db1 := db.(store := WithoutRow(db.store, table, schema, keys[0]));
        DeleteRowsKeeps(db1, table, schema, filter, keys[1..], snapshot);
      }
    }
  }

  lemma DeleteKeeps(db: Db, table: string, filter: Where, keys: seq<string>)
    requires Autocommit(db) && TableFine(db.store, table) && Lists(keys, RowKeys(db.store, table))
    ensures var db' := DeleteWhere(db, table, filter, keys).0;
            Autocommit(db') && SameElsewhere(db.store, db'.store, table) && TableFine(db'.store, table)
  {
    hide RowsOk, IndexAgrees, UniqueHolds, DeleteRows;
    forall i | 0 <= i < |keys| ensures RowKey(table, keys[i]) in db.store {
      assert keys[i] in keys;
    }
    DeleteRowsKeeps(db, table, SchemaAt(db.store, table), filter, keys, db.store);
  }
}
