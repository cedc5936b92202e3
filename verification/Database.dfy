/** Database as the source has it: an object over a key/value store whose
    methods put and delete keys in place.  Each method is proved to have the
    effect of the function of DbModel that the theorems are about. */
module Databases {
  import opened Wrappers
  import opened DbTypes
  import opened KeyOrder
  import opened DbModel

  class Database {
    var store: Store
    var transactionActive: bool
    var transactionChanges: map<Key, Option<Stored>>
    var transactionBinlog: seq<Event>
    var binlog: seq<Event>

    ghost function State(): Db
      reads this
    {
      Db(store, transactionActive, transactionChanges, transactionBinlog, binlog)
    }

    constructor (store: Store)
      ensures State() == Db(store, false, map[], [], [])
    {
      this.store := store;
      transactionActive, transactionChanges, transactionBinlog, binlog := false, map[], [], [];
    }

    method BeginTransaction() returns (ok: bool)
      modifies this
      ensures (State(), ok) == Begin(old(State()))
    {
      if transactionActive {
        return false;
      }
      transactionActive := true;
      transactionChanges := map[];
      transactionBinlog := [];
      return true;
    }

    /** The write batch applies the changes one key at a time. */
    method CommitTransaction() returns (ok: bool)
      modifies this
      ensures (State(), ok) == Commit(old(State()))
    {
      if !transactionActive {
        return false;
      }
      ghost var before := State();
      var todo := transactionChanges.Keys;
      while todo != {}
        invariant todo <= before.changes.Keys
        invariant State() == before.(store := store)
        invariant forall k :: k in todo || k !in before.changes ==>
                    (k in store <==> k in before.store) && (k in store ==> store[k] == before.store[k])
        invariant forall k :: k in before.changes && k !in todo ==>
                    (k in store <==> before.changes[k].Some?) && (k in store ==> store[k] == before.changes[k].value)
        decreases todo
      {
        var k :| k in todo;
        match transactionChanges[k] {
          case None => store := store - {k};
          case Some(v) => store := store[k := v];
        }
        todo := todo - {k};
      }
      assert store == Overlay(before.store, before.changes);
      transactionActive := false;
      transactionChanges := map[];
      binlog := binlog + transactionBinlog;
      transactionBinlog := [];
      return true;
    }

    method RollbackTransaction() returns (ok: bool)
      modifies this
      ensures (State(), ok) == Rollback(old(State()))
    {
      if !transactionActive {
        return false;
      }
      transactionActive := false;
      transactionChanges := map[];
      transactionBinlog := [];
      return true;
    }

    method Read(k: Key) returns (v: Option<Stored>)
      ensures v == GetCurrent(State(), k)
    {
      if transactionActive && k in transactionChanges {
        return transactionChanges[k];
      }
      if k in store {
        return Some(store[k]);
      }
      return None;
    }

    method TransactionPut(k: Key, v: Stored)
      modifies this
      ensures State() == Put(old(State()), k, v)
    {
      if transactionActive {
        transactionChanges := transactionChanges[k := Some(v)];
      } else {
        store := store[k := v];
      }
    }

    method TransactionDelete(k: Key)
      modifies this
      ensures State() == DbModel.Delete(old(State()), k)
    {
      if transactionActive {
        transactionChanges := transactionChanges[k := None];
      } else {
        store := store - {k};
      }
    }

    method LogBinlog(e: Event)
      modifies this
      ensures State() == Log(old(State()), e)
    {
      if transactionActive {
        transactionBinlog := transactionBinlog + [e];
      } else {
        binlog := binlog + [e];
      }
    }

    method CheckUniqueViolation(table: string, row: Row, rowKey: string,
                                unique: seq<string>) returns (error: Option<Response>)
      ensures error == CheckUnique(State(), table, row, rowKey, unique)
    {
      var i := 0;
      while i < |unique|
        invariant i <= |unique|
        invariant CheckUnique(State(), table, row, rowKey, unique)
                  == CheckUnique(State(), table, row, rowKey, unique[i..])
      {
        var col := unique[i];
        if col in row {
          var value := Str(row[col]);
          if EntryRows(transactionChanges.Keys, table, col, value) - {rowKey} != {} {
            return Some(DuplicateUnique(col, value));
          }
          if EntryRows(store.Keys, table, col, value) - {rowKey} != {} {
            return Some(DuplicateUnique(col, value));
          }
        }
        assert unique[i..][1..] == unique[i + 1..];
        i := i + 1;
      }
      return None;
    }

    method UpdateIndexes(table: string, row: Row, rowKey: string, indexes: seq<string>)
      modifies this
      ensures State() == AddEntries(old(State()), table, row, rowKey, indexes)
    {
      var i := 0;
      while i < |indexes|
        invariant i <= |indexes|
        invariant AddEntries(State(), table, row, rowKey, indexes[i..])
                  == AddEntries(old(State()), table, row, rowKey, indexes)
      {
        assert indexes[i..][1..] == indexes[i + 1..];
        if indexes[i] in row {
          TransactionPut(IdxKey(table, indexes[i], Str(row[indexes[i]]), rowKey), Marker);
        }
        i := i + 1;
      }
    }

    method RemoveFromIndexes(table: string, row: Row, rowKey: string, indexes: seq<string>)
      modifies this
      ensures State() == RemoveEntries(old(State()), table, row, rowKey, indexes)
    {
      var i := 0;
      while i < |indexes|
        invariant i <= |indexes|
        invariant RemoveEntries(State(), table, row, rowKey, indexes[i..])
                  == RemoveEntries(old(State()), table, row, rowKey, indexes)
      {
        assert indexes[i..][1..] == indexes[i + 1..];
        if indexes[i] in row {
          TransactionDelete(IdxKey(table, indexes[i], Str(row[indexes[i]]), rowKey));
        }
        i := i + 1;
      }
    }

    method CollectData(columns: seq<string>, values: seq<Value>) returns (data: Row)
      ensures data == Data(columns, values)
    {
      data := map[];
      var i := 0;
      while i < |columns|
        invariant i <= |columns|
        invariant data + Data(columns[i..], if i <= |values| then values[i..] else []) == Data(columns, values)
      {
        assert columns[i..][1..] == columns[i + 1..];
        if i < |values| {
          assert values[i..][1..] == values[i + 1..];
          ghost var rest := Data(columns[i + 1..], values[i + 1..]);
          assert data + (map[columns[i] := values[i]] + rest) == data[columns[i] := values[i]] + rest;
          data := data[columns[i] := values[i]];
        }
        i := i + 1;
      }
    }

    method Insert(table: string, columns: seq<string>, values: seq<Value>) returns (response: Response)
      modifies this
      ensures (State(), response) == DbModel.Insert(old(State()), table, columns, values)
    {
      var found := Read(SchemaKey(table));
      if !(found.Some? && found.value.SchemaData?) {
        return NoSuchTable;
      }
      var schema := found.value.schema;
      var data := CollectData(columns, values);
      var rowKey;
      if schema.primaryKey.Some? && schema.primaryKey.value in data {
        rowKey := Str(data[schema.primaryKey.value]);
        var existing := Read(RowKey(table, rowKey));
        if existing.Some? {
          return DuplicateKey(rowKey);
        }
      } else {
        rowKey := Decimal(schema.nextId);
        TransactionPut(SchemaKey(table), SchemaData(schema.(nextId := schema.nextId + 1)));
      }
      var row := NewRow(data, rowKey);
      var error := CheckUniqueViolation(table, row, rowKey, schema.unique);
      if error.Some? {
        return error.value;
      }
      TransactionPut(RowKey(table, rowKey), RowData(row));
      UpdateIndexes(table, row, rowKey, schema.indexes);
      LogBinlog(InsertEvent(table, row));
      return Inserted;
    }

    /** The body of UPDATE's loop for one matching row. */
    method UpdateOne(table: string, schema: Schema, changes: Row, rowKey: string, before: Row)
      returns (row: Row, error: Option<Response>)
      modifies this
      ensures var u := UpdateRow(old(State()), table, schema, changes, rowKey, before);
              u.db == State() && u.error == error && (error.None? ==> u.rows == [row])
    {
      row := before + changes;
      var newKey := rowKey;
      if schema.primaryKey.Some? && schema.primaryKey.value in changes && Str(row[schema.primaryKey.value]) != rowKey {
        newKey := Str(row[schema.primaryKey.value]);
        var existing := Read(RowKey(table, newKey));
        if existing.Some? {
          return row, Some(DuplicateKey(newKey));
        }
        row := row["id" := TextValue(newKey)];
        TransactionDelete(RowKey(table, rowKey));
        TransactionPut(RowKey(table, newKey), RowData(row));
      } else {
        TransactionPut(RowKey(table, rowKey), RowData(row));
      }
      if TouchesUnique(schema, changes) {
        error := CheckUniqueViolation(table, row, newKey, schema.unique);
        if error.Some? {
          return;
        }
      }
      if TouchesIndex(schema, changes) || newKey != rowKey {
        RemoveFromIndexes(table, before, rowKey, schema.indexes);
        UpdateIndexes(table, row, newKey, schema.indexes);
      }
      return row, None;
    }

    method Update(table: string, changes: Row, filter: Where) returns (response: Response, ghost keys: seq<string>)
      modifies this
      ensures Lists(keys, RowKeys(old(store), table))
      ensures (State(), response) == DbModel.Update(old(State()), table, changes, filter, keys)
    {
      var snapshot := store;
      var scan := Iterate(RowKeys(store, table));
      keys := scan;
      if !(SchemaKey(table) in store && store[SchemaKey(table)].SchemaData?) {
        return NoSuchTable, keys;
      }
      var schema := store[SchemaKey(table)].schema;
      var updatedRows := [];
      var i := 0;
      while i < |scan|
        invariant i <= |scan|
        invariant var rest := UpdateRows(State(), table, schema, changes, filter, scan[i..], snapshot);
                  UpdateState(rest.db, updatedRows + rest.rows, rest.error)
                  == UpdateRows(old(State()), table, schema, changes, filter, scan, snapshot)
      {
        assert scan[i..][1..] == scan[i + 1..];
        var before := RowAt(snapshot, table, scan[i]);
        if Matches(before, filter) {
          var row, error := UpdateOne(table, schema, changes, scan[i], before);
          if error.Some? {
            return error.value, keys;
          }
          updatedRows := updatedRows + [row];
        }
        i := i + 1;
      }
      assert scan[i..] == [] && updatedRows + [] == updatedRows;
      if updatedRows != [] {
        LogBinlog(UpdateEvent(table, changes, filter, updatedRows));
      }
      return Updated(|updatedRows|), keys;
    }

    method DeleteOne(table: string, schema: Schema, rowKey: string, row: Row)
      modifies this
      ensures State() == RemoveEntries(DbModel.Delete(old(State()), RowKey(table, rowKey)), table, row, rowKey,
                                       schema.indexes)
    {
      TransactionDelete(RowKey(table, rowKey));
      RemoveFromIndexes(table, row, rowKey, schema.indexes);
    }

    method Delete(table: string, filter: Where) returns (response: Response, ghost keys: seq<string>)
      modifies this
      ensures Lists(keys, RowKeys(old(store), table))
      ensures (State(), response) == DeleteWhere(old(State()), table, filter, keys)
    {
      hide Lists, DeleteRows;
      var snapshot := store;
      var scan := Iterate(RowKeys(store, table));
      keys := scan;
      if !(SchemaKey(table) in store && store[SchemaKey(table)].SchemaData?) {
        return NoSuchTable, keys;
      }
      var deletedRows := DeleteScanned(table, store[SchemaKey(table)].schema, filter, scan, snapshot);
      if deletedRows != [] {
        LogBinlog(DeleteEvent(table, filter, deletedRows));
      }
      return Deleted(|deletedRows|), keys;
    }

    /** DELETE's loop over the snapshot. */
    method DeleteScanned(table: string, schema: Schema, filter: Where, scan: seq<string>, snapshot: Store)
      returns (deletedRows: seq<Row>)
      modifies this
      ensures (State(), deletedRows) == DeleteRows(old(State()), table, schema, filter, scan, snapshot)
    {
      hide RowAt, Matches, RemoveEntries, DbModel.Delete;
      deletedRows := [];
      ghost var goal := DeleteRows(State(), table, schema, filter, scan, snapshot);
      var i := 0;
      assert scan[i..] == scan && [] + goal.1 == goal.1;
      while i < |scan|
        invariant i <= |scan|
        invariant DeleteRows(State(), table, schema, filter, scan[i..], snapshot).0 == goal.0
        invariant deletedRows + DeleteRows(State(), table, schema, filter, scan[i..], snapshot).1 == goal.1
      {
        assert scan[i..][1..] == scan[i + 1..];
        ghost var rest := DeleteRows(State(), table, schema, filter, scan[i..], snapshot).1;
        assert rest != [] ==> deletedRows + rest == (deletedRows + [rest[0]]) + rest[1..];
        var row := RowAt(snapshot, table, scan[i]);
        if Matches(row, filter) {
          DeleteOne(table, schema, scan[i], row);
          deletedRows := deletedRows + [row];
        }
        i := i + 1;
      }
      assert scan[i..] == [] && deletedRows + [] == deletedRows;
    }

    method SelectRows(table: string, filter: Where) returns (results: seq<Row>)
      ensures results == Select(State(), table, filter)
    {
      if !(SchemaKey(table) in store && store[SchemaKey(table)].SchemaData?) {
        return [];
      }
      var schema := store[SchemaKey(table)].schema;
      var column := IndexColumn(schema, filter);
      if column.Some? {
        var value := Str(Lookup(filter, column.value));
        if schema.primaryKey == column {
          results := FetchRows(table, filter, [value]);
        } else {
          var rows := EntryRows(store.Keys, table, column.value, value);
          var entries := Iterate(rows);
          ListsUnique(entries, Listing(rows), rows);
          results := FetchRows(table, filter, entries);
        }
      } else {
        var rows := RowKeys(store, table);
        var keys := Iterate(rows);
        ListsUnique(keys, Listing(rows), rows);
        results := ScanRows(table, filter, keys);
      }
    }

    method FetchRows(table: string, filter: Where, entries: seq<string>) returns (results: seq<Row>)
      ensures results == Fetch(State(), table, filter, entries)
    {
      results := [];
      var i := 0;
      while i < |entries|
        invariant i <= |entries|
        invariant results + Fetch(State(), table, filter, entries[i..]) == Fetch(State(), table, filter, entries)
      {
        assert entries[i..][1..] == entries[i + 1..];
        var found := FetchRow(table, filter, entries[i]);
        results := results + found;
        i := i + 1;
      }
    }

    method FetchRow(table: string, filter: Where, r: string) returns (rows: seq<Row>)
      ensures rows == FetchOne(State(), table, filter, r)
    {
      var found := Read(RowKey(table, r));
      if found.Some? && found.value.RowData? && Matches(found.value.data, filter) {
        return [found.value.data];
      }
      return [];
    }

    method ScanRows(table: string, filter: Where, keys: seq<string>) returns (results: seq<Row>)
      ensures results == Scan(store, table, filter, keys)
    {
      hide RowAt, Matches, Select;
      results := [];
      var i := 0;
      assert results + Scan(store, table, filter, keys) == Scan(store, table, filter, keys) && keys[0..] == keys;
      while i < |keys|
        invariant i <= |keys|
        invariant results + Scan(store, table, filter, keys[i..]) == Scan(store, table, filter, keys)
      {
        assert keys[i..][1..] == keys[i + 1..];
        ghost var rest := Scan(store, table, filter, keys[i + 1..]);
        var row := RowAt(store, table, keys[i]);
        assert Scan(store, table, filter, keys[i..]) == (if Matches(row, filter) then [row] else []) + rest;
        if Matches(row, filter) {
          assert results + ([row] + rest) == (results + [row]) + rest;
          results := results + [row];
        } else {
          assert [] + rest == rest;
        }
        i := i + 1;
      }
      assert keys[i..] == [] && results + [] == results;
    }
  }
}
