/** A transaction of inserts refines running them one by one. */
module DbTransactions {
  import opened Wrappers
  import opened DbTypes
  import opened DbModel

  datatype InsertOp = InsertOp(table: string, columns: seq<string>, values: seq<Value>)

  function RunInserts(db: Db, ops: seq<InsertOp>): (Db, seq<Response>)
    decreases |ops|
  {
    if ops == [] then (db, [])
    else
      var (db1, r) := Insert(db, ops[0].table, ops[0].columns, ops[0].values);
      var (db2, rs) := RunInserts(db1, ops[1..]);
      (db2, [r] + rs)
  }

  /** No transaction is open. */
  predicate Autocommit(db: Db) {
    !db.active && db.changes == map[] && db.pending == []
  }

  /** `tx` is inside a transaction that, so far, did what `auto` did in autocommit mode. */
  ghost predicate Mirrors(tx: Db, auto: Db) {
    && tx.active && Autocommit(auto)
    && (forall k :: k in tx.changes ==> tx.changes[k].Some?)
    && auto.store == Overlay(tx.store, tx.changes)
    && auto.binlog == tx.binlog + tx.pending
  }

  lemma GetMirrors(tx: Db, auto: Db, k: Key)
    requires Mirrors(tx, auto)
    ensures GetCurrent(tx, k) == GetCurrent(auto, k)
  {
  }

  lemma PutMirrors(tx: Db, auto: Db, k: Key, v: Stored)
    requires Mirrors(tx, auto)
    ensures Mirrors(Put(tx, k, v), Put(auto, k, v))
  {
    assert Put(auto, k, v).store == Overlay(Put(tx, k, v).store, Put(tx, k, v).changes);
  }

  lemma LogMirrors(tx: Db, auto: Db, e: Event)
    requires Mirrors(tx, auto)
    ensures Mirrors(Log(tx, e), Log(auto, e))
  {
    assert (tx.binlog + tx.pending) + [e] == tx.binlog + (tx.pending + [e]);
  }

  lemma TakenMirrors(tx: Db, auto: Db, table: string, col: string, value: string, rowKey: string)
    requires Mirrors(tx, auto)
    ensures Taken(tx, table, col, value, rowKey) == Taken(auto, table, col, value, rowKey)
  {
    assert auto.store.Keys == tx.store.Keys + tx.changes.Keys;
    assert EntryRows(auto.store.Keys, table, col, value)
        == EntryRows(tx.changes.Keys, table, col, value) + EntryRows(tx.store.Keys, table, col, value);
    assert EntryRows(auto.changes.Keys, table, col, value) == {};
    var a, b := EntryRows(tx.changes.Keys, table, col, value), EntryRows(tx.store.Keys, table, col, value);
    assert (a + b) - {rowKey} == (a - {rowKey}) + (b - {rowKey});
  }

  lemma {:induction false} CheckUniqueMirrors(tx: Db, auto: Db, table: string, row: Row, rowKey: string,
                                              unique: seq<string>)
    requires Mirrors(tx, auto)
    ensures CheckUnique(tx, table, row, rowKey, unique) == CheckUnique(auto, table, row, rowKey, unique)
  {
    if unique != [] {
      if unique[0] in row {
        TakenMirrors(tx, auto, table, unique[0], Str(row[unique[0]]), rowKey);
      }
      CheckUniqueMirrors(tx, auto, table, row, rowKey, unique[1..]);
    }
  }

  lemma {:induction false} AddEntriesMirrors(tx: Db, auto: Db, table: string, row: Row, rowKey: string,
                                             cols: seq<string>)
    requires Mirrors(tx, auto)
    ensures Mirrors(AddEntries(tx, table, row, rowKey, cols), AddEntries(auto, table, row, rowKey, cols))
    decreases |cols|
  {
    if cols != [] {
      if cols[0] in row {
        var k := IdxKey(table, cols[0], Str(row[cols[0]]), rowKey);
        PutMirrors(tx, auto, k, Marker);
        AddEntriesMirrors(Put(tx, k, Marker), Put(auto, k, Marker), table, row, rowKey, cols[1..]);
      } else {
        AddEntriesMirrors(tx, auto, table, row, rowKey, cols[1..]);
      }
    }
  }

  lemma InsertRowMirrors(tx: Db, auto: Db, table: string, schema: Schema, data: Row, rowKey: string)
    requires Mirrors(tx, auto)
    ensures Mirrors(InsertRow(tx, table, schema, data, rowKey).0, InsertRow(auto, table, schema, data, rowKey).0)
    ensures InsertRow(tx, table, schema, data, rowKey).1 == InsertRow(auto, table, schema, data, rowKey).1
  {
    hide Mirrors;
    var row := NewRow(data, rowKey);
    CheckUniqueMirrors(tx, auto, table, row, rowKey, schema.unique);
    var k := RowKey(table, rowKey);
    PutMirrors(tx, auto, k, RowData(row));
    var tx1, auto1 := Put(tx, k, RowData(row)), Put(auto, k, RowData(row));
    AddEntriesMirrors(tx1, auto1, table, row, rowKey, schema.indexes);
    LogMirrors(AddEntries(tx1, table, row, rowKey, schema.indexes),
               AddEntries(auto1, table, row, rowKey, schema.indexes),
               InsertEvent(table, row));
  }

  /** One insert, accepted or rejected, answers the same and leaves the two in step. */
  lemma InsertMirrors(tx: Db, auto: Db, op: InsertOp)
    requires Mirrors(tx, auto)
    ensures Mirrors(Insert(tx, op.table, op.columns, op.values).0, Insert(auto, op.table, op.columns, op.values).0)
    ensures Insert(tx, op.table, op.columns, op.values).1 == Insert(auto, op.table, op.columns, op.values).1
  {
    hide Mirrors;
    GetMirrors(tx, auto, SchemaKey(op.table));
    var found := GetCurrent(tx, SchemaKey(op.table));
    if found.Some? && found.value.SchemaData? {
      var schema, data := found.value.schema, Data(op.columns, op.values);
      if schema.primaryKey.Some? && schema.primaryKey.value in data {
        var rowKey := Str(data[schema.primaryKey.value]);
        GetMirrors(tx, auto, RowKey(op.table, rowKey));
        InsertRowMirrors(tx, auto, op.table, schema, data, rowKey);
      } else {
        var k, v := SchemaKey(op.table), SchemaData(schema.(nextId := schema.nextId + 1));
        PutMirrors(tx, auto, k, v);
        InsertRowMirrors(Put(tx, k, v), Put(auto, k, v), op.table, schema, data, Decimal(schema.nextId));
      }
    }
  }

  lemma {:induction false} RunMirrors(tx: Db, auto: Db, ops: seq<InsertOp>)
    requires Mirrors(tx, auto)
    ensures Mirrors(RunInserts(tx, ops).0, RunInserts(auto, ops).0)
    ensures RunInserts(tx, ops).1 == RunInserts(auto, ops).1
    decreases |ops|
  {
    hide Mirrors, Insert;
    if ops != [] {
      InsertMirrors(tx, auto, ops[0]);
      RunMirrors(Insert(tx, ops[0].table, ops[0].columns, ops[0].values).0,
                 Insert(auto, ops[0].table, ops[0].columns, ops[0].values).0, ops[1..]);
    }
  }

  /** Nothing an open transaction does reaches the store or the binlog. */
  ghost predicate SameCommitted(a: Db, b: Db) {
    a.active && b.active && a.store == b.store && a.binlog == b.binlog
  }

  lemma {:induction false} AddEntriesIsolated(db: Db, table: string, row: Row, rowKey: string, cols: seq<string>)
    requires db.active
    ensures SameCommitted(db, AddEntries(db, table, row, rowKey, cols))
    decreases |cols|
  {
    if cols != [] {
      AddEntriesIsolated(if cols[0] in row then Put(db, IdxKey(table, cols[0], Str(row[cols[0]]), rowKey), Marker)
                         else db,
                         table, row, rowKey, cols[1..]);
    }
  }

  lemma InsertRowIsolated(db: Db, table: string, schema: Schema, data: Row, rowKey: string)
    requires db.active
    ensures SameCommitted(db, InsertRow(db, table, schema, data, rowKey).0)
  {
    var row := NewRow(data, rowKey);
    AddEntriesIsolated(Put(db, RowKey(table, rowKey), RowData(row)), table, row, rowKey, schema.indexes);
  }

  lemma InsertIsolated(db: Db, op: InsertOp)
    requires db.active
    ensures SameCommitted(db, Insert(db, op.table, op.columns, op.values).0)
  {
    var found := GetCurrent(db, SchemaKey(op.table));
    if found.Some? && found.value.SchemaData? {
      var schema, data := found.value.schema, Data(op.columns, op.values);
      if schema.primaryKey.Some? && schema.primaryKey.value in data {
        InsertRowIsolated(db, op.table, schema, data, Str(data[schema.primaryKey.value]));
      } else {
        InsertRowIsolated(Put(db, SchemaKey(op.table), SchemaData(schema.(nextId := schema.nextId + 1))),
                          op.table, schema, data, Decimal(schema.nextId));
      }
    }
  }

  lemma {:induction false} RunIsolated(db: Db, ops: seq<InsertOp>)
    requires db.active
    ensures SameCommitted(db, RunInserts(db, ops).0)
    decreases |ops|
  {
    hide Insert;
    if ops != [] {
      InsertIsolated(db, ops[0]);
      RunIsolated(Insert(db, ops[0].table, ops[0].columns, ops[0].values).0, ops[1..]);
    }
  }

  /** begin; ops; commit answers and ends exactly as running ops in autocommit mode, rejected
      inserts and their consumed ids included; begin; ops; rollback leaves everything as it was. */
  lemma TransactionRefinesAutocommit(db: Db, ops: seq<InsertOp>)
    requires Autocommit(db)
    ensures var (tx, answers) := RunInserts(Begin(db).0, ops);
            && (Commit(tx).0, answers) == RunInserts(db, ops)
            && Rollback(tx).0 == db
  {
    var tx := Begin(db).0;
    assert Overlay(tx.store, tx.changes) == db.store;
    assert Mirrors(tx, db);
    RunMirrors(tx, db, ops);
    RunIsolated(tx, ops);
  }

  // ---- Scripts of transactions ----

  /** A transaction block: its inserts, and whether it ends in COMMIT or ROLLBACK. */
  datatype Block = Block(ops: seq<InsertOp>, commit: bool)

  function RunBlocks(db: Db, blocks: seq<Block>): Db
    decreases |blocks|
  {
    if blocks == [] then db
    else
      var tx := RunInserts(Begin(db).0, blocks[0].ops).0;
      RunBlocks(if blocks[0].commit then Commit(tx).0 else Rollback(tx).0, blocks[1..])
  }

  /** The inserts of the committed blocks, in order. */
  function CommittedOps(blocks: seq<Block>): seq<InsertOp> {
    if blocks == [] then []
    else (if blocks[0].commit then blocks[0].ops else []) + CommittedOps(blocks[1..])
  }

  lemma {:induction false} RunConcat(db: Db, a: seq<InsertOp>, b: seq<InsertOp>)
    ensures RunInserts(db, a + b).0 == RunInserts(RunInserts(db, a).0, b).0
    decreases |a|
  {
    if a == [] {
      assert a + b == b;
    } else {
      assert (a + b)[0] == a[0] && (a + b)[1..] == a[1..] + b;
      RunConcat(Insert(db, a[0].table, a[0].columns, a[0].values).0, a[1..], b);
    }
  }

  /** Any script of transactions leaves the database as if only the committed blocks'
      inserts had ever been issued, one by one. */
  lemma {:induction false} ScriptRefinesAutocommit(db: Db, blocks: seq<Block>)
    requires Autocommit(db)
    ensures RunBlocks(db, blocks) == RunInserts(db, CommittedOps(blocks)).0
    ensures Autocommit(RunBlocks(db, blocks))
    decreases |blocks|
  {
    hide Insert;
    if blocks != [] {
      var b := blocks[0];
      TransactionRefinesAutocommit(db, b.ops);
      var tx := RunInserts(Begin(db).0, b.ops).0;
      RunIsolated(Begin(db).0, b.ops);
      var next := if b.commit then Commit(tx).0 else Rollback(tx).0;
      ScriptRefinesAutocommit(next, blocks[1..]);
      if b.commit {
        RunConcat(db, b.ops, CommittedOps(blocks[1..]));
      } else {
        assert [] + CommittedOps(blocks[1..]) == CommittedOps(blocks[1..]);
      }
    }
  }
}
