/** Index lookups return what the full scan returns. */
module DbSelect {
  import opened Wrappers
  import opened DbTypes
  import opened KeyOrder
  import opened DbModel
  import opened DbTransactions
  import opened DbIndexes

  // ---- Scanning fewer keys ----

  /** Skipping keys whose rows cannot match does not change a scan. */
  lemma {:induction false} ScanSkips(s: Store, table: string, filter: Where, all: seq<string>, keys: set<string>,
                                     some: seq<string>, fewer: set<string>)
    requires Lists(all, keys) && Lists(some, fewer) && fewer <= keys
    requires forall k :: k in keys && Matches(RowAt(s, table, k), filter) ==> k in fewer
    ensures Scan(s, table, filter, all) == Scan(s, table, filter, some)
    decreases |all|
  {
    assert forall i :: 0 <= i < |some| ==> some[i] in some;
    assert forall k :: k in some ==> k in all;
    if all == [] {
    } else {
      assert all[0] in all;
      ListsTail(all, keys);
      if all[0] in fewer {
        assert all[0] in some;
        var i :| 0 <= i < |some| && some[i] == all[0];
        assert some[0] in some;
        assert some[0] in all;
        var j :| 0 <= j < |all| && all[j] == some[0];
        if i > 0 {
          assert Leq(some[0], some[i]) && some[0] != some[i];
          assert Leq(all[0], all[j]);
          LeqAntisymmetric(all[0], some[0]);
        }
        ListsTail(some, fewer);
        ScanSkips(s, table, filter, all[1..], keys - {all[0]}, some[1..], fewer - {some[0]});
      } else {
        ScanSkips(s, table, filter, all[1..], keys - {all[0]}, some, fewer);
      }
    }
  }

  lemma {:induction false} FetchIsScan(db: Db, table: string, filter: Where, entries: seq<string>)
    requires Autocommit(db)
    requires forall i :: 0 <= i < |entries| ==>
               RowKey(table, entries[i]) in db.store && db.store[RowKey(table, entries[i])].RowData?
    ensures Fetch(db, table, filter, entries) == Scan(db.store, table, filter, entries)
  {
    if entries != [] {
      FetchIsScan(db, table, filter, entries[1..]);
    }
  }

  lemma {:induction false} LookupMatches(row: Row, filter: Where, schema: Schema)
    requires IndexColumn(schema, filter).Some?
    ensures var col := IndexColumn(schema, filter).value;
            Matches(row, filter) ==> Str(Get(row, col)) == Str(Lookup(filter, col))
  {
    LookupOccurs(filter, IndexColumn(schema, filter).value, schema);
  }

  lemma {:induction false} LookupOccurs(filter: Where, col: string, schema: Schema)
    requires IndexColumn(schema, filter) == Some(col)
    ensures exists i :: 0 <= i < |filter| && filter[i] == (col, Lookup(filter, col))
    ensures schema.primaryKey == Some(col) || col in schema.indexes
  {
    if Some(filter[0].0) == schema.primaryKey || filter[0].0 in schema.indexes {
      assert filter[0] == (col, Lookup(filter, col));
    } else {
      LookupOccurs(filter[1..], col, schema);
      var i :| 0 <= i < |filter[1..]| && filter[1..][i] == (col, Lookup(filter[1..], col));
      assert filter[i + 1] == (col, Lookup(filter, col));
    }
  }

  // ---- The three ways SELECT finds rows ----

  /** A matching row without the indexed column: the scan reads it as None, the index has no entry for it. */
  predicate Unindexed(s: Store, table: string, filter: Where, col: string, r: string) {
    RowKey(table, r) in s && col !in RowAt(s, table, r) && Matches(RowAt(s, table, r), filter)
  }

  lemma SelectByKey(db: Db, table: string, filter: Where, schema: Schema, all: seq<string>)
    requires Autocommit(db) && TableOk(db.store, table, schema) && Lists(all, RowKeys(db.store, table))
    requires IndexColumn(schema, filter).Some? && IndexColumn(schema, filter) == schema.primaryKey
    ensures Fetch(db, table, filter, [Str(Lookup(filter, schema.primaryKey.value))])
            == Scan(db.store, table, filter, all)
  {
    var s, pk := db.store, schema.primaryKey.value;
    var value := Str(Lookup(filter, pk));
    var hit: set<string> := if RowKey(table, value) in s then {value} else {};
    var list: seq<string> := if RowKey(table, value) in s then [value] else [];
    forall k | k in RowKeys(s, table) && Matches(RowAt(s, table, k), filter) ensures k in hit {
      LookupMatches(RowAt(s, table, k), filter, schema);
      assert KeyOk(schema, k, RowAt(s, table, k));
    }
    ScanSkips(s, table, filter, all, RowKeys(s, table), list, hit);
    FetchIsScan(db, table, filter, list);
  }

  lemma SelectByEntries(db: Db, table: string, filter: Where, schema: Schema, all: seq<string>, entries: seq<string>)
    requires Autocommit(db) && TableOk(db.store, table, schema) && Lists(all, RowKeys(db.store, table))
    requires IndexColumn(schema, filter).Some? && IndexColumn(schema, filter) != schema.primaryKey
    requires var col := IndexColumn(schema, filter).value;
             && Lists(entries, EntryRows(db.store.Keys, table, col, Str(Lookup(filter, col))))
             && (forall r :: !Unindexed(db.store, table, filter, col, r))
    ensures Fetch(db, table, filter, entries) == Scan(db.store, table, filter, all)
  {
    hide UniqueHolds;
    var s, col := db.store, IndexColumn(schema, filter).value;
    var value := Str(Lookup(filter, col));
    var rows := EntryRows(s.Keys, table, col, value);
    EntriesAreRows(s, table, schema, col, value);
    LookupOccurs(filter, col, schema);
    forall k | k in RowKeys(s, table) && Matches(RowAt(s, table, k), filter) ensures k in rows {
      LookupMatches(RowAt(s, table, k), filter, schema);
      assert !Unindexed(s, table, filter, col, k);
      assert Holds(s, table, schema, col, value, k);
      assert IdxKey(table, col, value, k) in s.Keys;
    }
    ScanSkips(s, table, filter, all, RowKeys(s, table), entries, rows);
    forall i | 0 <= i < |entries| ensures RowKey(table, entries[i]) in s && s[RowKey(table, entries[i])].RowData? {
      assert entries[i] in entries;
    }
    FetchIsScan(db, table, filter, entries);
  }

  lemma EntriesAreRows(s: Store, table: string, schema: Schema, col: string, value: string)
    requires TableOk(s, table, schema)
    ensures EntryRows(s.Keys, table, col, value) <= RowKeys(s, table)
    ensures forall r :: r in EntryRows(s.Keys, table, col, value) ==>
              col in RowAt(s, table, r) && RowKey(table, r) in s && s[RowKey(table, r)].RowData?
  {
    forall r | r in EntryRows(s.Keys, table, col, value)
      ensures r in RowKeys(s, table) && col in RowAt(s, table, r) && RowKey(table, r) in s
              && s[RowKey(table, r)].RowData?
    {
      assert IdxKey(table, col, value, r) in s;
      assert Holds(s, table, schema, col, value, r);
    }
  }

  lemma {:induction false} FetchedHaveColumn(db: Db, table: string, filter: Where, col: string, entries: seq<string>)
    requires Autocommit(db)
    requires forall i :: 0 <= i < |entries| ==> col in RowAt(db.store, table, entries[i])
    ensures forall row :: row in Fetch(db, table, filter, entries) ==> col in row
  {
    if entries != [] {
      FetchedHaveColumn(db, table, filter, col, entries[1..]);
    }
  }

  lemma {:induction false} ScanFinds(s: Store, table: string, filter: Where, keys: seq<string>, r: string)
    requires r in keys && Matches(RowAt(s, table, r), filter)
    ensures RowAt(s, table, r) in Scan(s, table, filter, keys)
  {
    if keys[0] != r {
      ScanFinds(s, table, filter, keys[1..], r);
    }
  }

  /** SELECT returns the scan's list, in the scan's order, if and only if no matching row lacks
      the column whose index is used. */
  lemma SelectIsScanIff(db: Db, table: string, filter: Where)
    requires Autocommit(db) && TableFine(db.store, table)
    ensures var schema := SchemaAt(db.store, table);
            var col := IndexColumn(schema, filter);
            Select(db, table, filter) == Scan(db.store, table, filter, Listing(RowKeys(db.store, table))) <==>
            (col.Some? && col != schema.primaryKey ==> forall r :: !Unindexed(db.store, table, filter, col.value, r))
  {
    hide RowsOk, UniqueHolds, IndexAgrees;
    var s, schema := db.store, SchemaAt(db.store, table);
    var all := Listing(RowKeys(s, table));
    var column := IndexColumn(schema, filter);
    if column.Some? && column == schema.primaryKey {
      SelectByKey(db, table, filter, schema, all);
    } else if column.Some? {
      var col := column.value;
      var value := Str(Lookup(filter, col));
      var entries := Listing(EntryRows(s.Keys, table, col, value));
      if r :| Unindexed(s, table, filter, col, r) {
        assert r in RowKeys(s, table);
        ScanFinds(s, table, filter, all, r);
        EntriesAreRows(s, table, schema, col, value);
        forall i | 0 <= i < |entries| ensures col in RowAt(s, table, entries[i]) {
          assert entries[i] in entries;
        }
        FetchedHaveColumn(db, table, filter, col, entries);
      } else {
        SelectByEntries(db, table, filter, schema, all, entries);
      }
    }
  }

  /** In particular for every lookup value but "None". */
  lemma SelectIsScan(db: Db, table: string, filter: Where)
    requires Autocommit(db) && TableFine(db.store, table)
    requires var col := IndexColumn(SchemaAt(db.store, table), filter);
             col.Some? ==> Str(Lookup(filter, col.value)) != "None"
    ensures Select(db, table, filter) == Scan(db.store, table, filter, Listing(RowKeys(db.store, table)))
  {
    hide TableOk;
    var schema := SchemaAt(db.store, table);
    var col := IndexColumn(schema, filter);
    if col.Some? {
      forall r ensures !Unindexed(db.store, table, filter, col.value, r) {
        LookupMatches(RowAt(db.store, table, r), filter, schema);
      }
    }
    SelectIsScanIff(db, table, filter);
  }
}
