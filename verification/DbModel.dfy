/** The row store of database.py as functions on its state: a committed store,
    a transaction overlay and the binlog with its transaction buffer. */
module DbModel {
  import opened Wrappers
  import opened DbTypes
  import opened KeyOrder

  type Store = map<Key, Stored>

  datatype Db = Db(
    store: Store,
    active: bool,
    changes: map<Key, Option<Stored>>,
    pending: seq<Event>,
    binlog: seq<Event>)

  // ---- Transactions ----

  function Begin(db: Db): (Db, bool) {
    if db.active then (db, false) else (db.(active := true, changes := map[], pending := []), true)
  }

  /** The store with the overlay applied: None marks a deleted key. */
  function Overlay(store: Store, changes: map<Key, Option<Stored>>): Store {
    map k | k in store.Keys + changes.Keys && (k in changes ==> changes[k].Some?) ::
      if k in changes then changes[k].value else store[k]
  }

  function Commit(db: Db): (Db, bool) {
    if !db.active then (db, false)
    else (Db(Overlay(db.store, db.changes), false, map[], [], db.binlog + db.pending), true)
  }

  function Rollback(db: Db): (Db, bool) {
    if !db.active then (db, false) else (db.(active := false, changes := map[], pending := []), true)
  }

  function GetCurrent(db: Db, k: Key): Option<Stored> {
    if db.active && k in db.changes then db.changes[k]
    else if k in db.store then Some(db.store[k]) else None
  }

  function Put(db: Db, k: Key, v: Stored): Db {
    if db.active then db.(changes := db.changes[k := Some(v)]) else db.(store := db.store[k := v])
  }

  function Delete(db: Db, k: Key): Db {
    if db.active then db.(changes := db.changes[k := None]) else db.(store := db.store - {k})
  }

  function Log(db: Db, e: Event): Db {
    if db.active then db.(pending := db.pending + [e]) else db.(binlog := db.binlog + [e])
  }

  // ---- Secondary indexes ----

  /** The row keys of the index entries for (table, col, value) among `keys`. */
  function EntryRows(keys: set<Key>, table: string, col: string, value: string): set<string> {
    set k | k in keys && k.IdxKey? && k.table == table && k.col == col && k.value == value :: k.row
  }

  predicate Taken(db: Db, table: string, col: string, value: string, rowKey: string) {
    || EntryRows(db.changes.Keys, table, col, value) - {rowKey} != {}
    || EntryRows(db.store.Keys, table, col, value) - {rowKey} != {}
  }

  function CheckUnique(db: Db, table: string, row: Row, rowKey: string, unique: seq<string>): Option<Response> {
    if unique == [] then None
    else if unique[0] in row && Taken(db, table, unique[0], Str(row[unique[0]]), rowKey) then
      Some(DuplicateUnique(unique[0], Str(row[unique[0]])))
    else CheckUnique(db, table, row, rowKey, unique[1..])
  }

  function AddEntries(db: Db, table: string, row: Row, rowKey: string, cols: seq<string>): Db
    decreases |cols|
  {
    if cols == [] then db
    else
      AddEntries(if cols[0] in row then Put(db, IdxKey(table, cols[0], Str(row[cols[0]]), rowKey), Marker) else db,
                 table, row, rowKey, cols[1..])
  }

  function RemoveEntries(db: Db, table: string, row: Row, rowKey: string, cols: seq<string>): Db
    decreases |cols|
  {
    if cols == [] then db
    else
      RemoveEntries(if cols[0] in row then Delete(db, IdxKey(table, cols[0], Str(row[cols[0]]), rowKey)) else db,
                    table, row, rowKey, cols[1..])
  }

  // ---- INSERT ----

  /** Positional values paired with column names; extra columns or values are ignored. */
  function Data(columns: seq<string>, values: seq<Value>): Row {
    if columns == [] || values == [] then map[]
    else map[columns[0] := values[0]] + Data(columns[1..], values[1..])
  }

  function Insert(db: Db, table: string, columns: seq<string>, values: seq<Value>): (Db, Response) {
    var found := GetCurrent(db, SchemaKey(table));
    if !(found.Some? && found.value.SchemaData?) then (db, NoSuchTable)
    else
      var schema, data := found.value.schema, Data(columns, values);
      if schema.primaryKey.Some? && schema.primaryKey.value in data then
        var rowKey := Str(data[schema.primaryKey.value]);
        if GetCurrent(db, RowKey(table, rowKey)).Some? then (db, DuplicateKey(rowKey))
        else InsertRow(db, table, schema, data, rowKey)
      else
        var rowKey := Decimal(schema.nextId);
        var db1 := Put(db, SchemaKey(table), SchemaData(schema.(nextId := schema.nextId + 1)));
        InsertRow(db1, table, schema, data, rowKey)
  }

  function NewRow(data: Row, rowKey: string): Row {
    map["id" := TextValue(rowKey)] + data
  }

  function InsertRow(db: Db, table: string, schema: Schema, data: Row, rowKey: string): (Db, Response) {
    var row := NewRow(data, rowKey);
    var violation := CheckUnique(db, table, row, rowKey, schema.unique);
    if violation.Some? then (db, violation.value)
    else
      var db1 := Put(db, RowKey(table, rowKey), RowData(row));
      var db2 := AddEntries(db1, table, row, rowKey, schema.indexes);
      (Log(db2, InsertEvent(table, row)), Inserted)
  }

  // ---- UPDATE and DELETE (over the committed rows, as the source scans them) ----

  /** The row keys of a table's committed rows. */
  function RowKeys(store: Store, table: string): set<string> {
    set k | k in store && k.RowKey? && k.table == table :: k.row
  }

  function RowAt(store: Store, table: string, rowKey: string): Row {
    var k := RowKey(table, rowKey);
    if k in store && store[k].RowData? then store[k].data else map[]
  }

  datatype UpdateState = UpdateState(db: Db, rows: seq<Row>, error: Option<Response>)

  predicate TouchesIndex(schema: Schema, changes: Row) {
    exists c :: c in changes && (c in schema.indexes || schema.primaryKey == Some(c))
  }

  predicate TouchesUnique(schema: Schema, changes: Row) {
    exists c :: c in changes && c in schema.unique
  }

  /** One matching row of an UPDATE. */
  function UpdateRow(db: Db, table: string, schema: Schema, changes: Row, rowKey: string, before: Row): UpdateState {
    var changed := before + changes;
    var pk := schema.primaryKey;
    var newKey := if pk.Some? && pk.value in changes then Str(changed[pk.value]) else rowKey;
    if newKey != rowKey && GetCurrent(db, RowKey(table, newKey)).Some? then
      UpdateState(db, [], Some(DuplicateKey(newKey)))
    else
      var row := if newKey != rowKey then changed["id" := TextValue(newKey)] else changed;
      var db1 := if newKey != rowKey then Delete(db, RowKey(table, rowKey)) else db;
      var db2 := Put(db1, RowKey(table, newKey), RowData(row));
      var violation :=
        if TouchesUnique(schema, changes) then CheckUnique(db2, table, row, newKey, schema.unique) else None;
      if violation.Some? then UpdateState(db2, [], violation)
      else if TouchesIndex(schema, changes) || newKey != rowKey then
        var db3 := RemoveEntries(db2, table, before, rowKey, schema.indexes);
        UpdateState(AddEntries(db3, table, row, newKey, schema.indexes), [row], None)
      else
        UpdateState(db2, [row], None)
  }

  /** The rows of the snapshot from position 0 on, in key order, stopping at the first error. */
  function UpdateRows(db: Db, table: string, schema: Schema, changes: Row, filter: Where,
                      keys: seq<string>, snapshot: Store): UpdateState
    decreases |keys|
  {
    if keys == [] then UpdateState(db, [], None)
    else
      var before := RowAt(snapshot, table, keys[0]);
      if !Matches(before, filter) then UpdateRows(db, table, schema, changes, filter, keys[1..], snapshot)
      else
        var one := UpdateRow(db, table, schema, changes, keys[0], before);
        if one.error.Some? then one
        else
          var rest := UpdateRows(one.db, table, schema, changes, filter, keys[1..], snapshot);
          UpdateState(rest.db, one.rows + rest.rows, rest.error)
  }

  /** An error returns before the binlog is written, whatever rows were already changed. */
  function Update(db: Db, table: string, changes: Row, filter: Where, keys: seq<string>): (Db, Response) {
    if !(SchemaKey(table) in db.store && db.store[SchemaKey(table)].SchemaData?) then (db, NoSuchTable)
    else
      var r := UpdateRows(db, table, db.store[SchemaKey(table)].schema, changes, filter, keys, db.store);
      if r.error.Some? then (r.db, r.error.value)
      else (if r.rows == [] then r.db else Log(r.db, UpdateEvent(table, changes, filter, r.rows)), Updated(|r.rows|))
  }

  function DeleteRows(db: Db, table: string, schema: Schema, filter: Where, keys: seq<string>,
                      snapshot: Store): (Db, seq<Row>)
    decreases |keys|
  {
    if keys == [] then (db, [])
    else
      var row := RowAt(snapshot, table, keys[0]);
      if !Matches(row, filter) then DeleteRows(db, table, schema, filter, keys[1..], snapshot)
      else
        var db1 := RemoveEntries(Delete(db, RowKey(table, keys[0])), table, row, keys[0], schema.indexes);
        var (db2, rows) := DeleteRows(db1, table, schema, filter, keys[1..], snapshot);
        (db2, [row] + rows)
  }

  function DeleteWhere(db: Db, table: string, filter: Where, keys: seq<string>): (Db, Response) {
    if !(SchemaKey(table) in db.store && db.store[SchemaKey(table)].SchemaData?) then (db, NoSuchTable)
    else
      var (db1, rows) := DeleteRows(db, table, db.store[SchemaKey(table)].schema, filter, keys, db.store);
      (if rows == [] then db1 else Log(db1, DeleteEvent(table, filter, rows)), Deleted(|rows|))
  }

  // ---- SELECT ----

  function Scan(store: Store, table: string, filter: Where, keys: seq<string>): seq<Row> {
    if keys == [] then []
    else
      var row := RowAt(store, table, keys[0]);
      (if Matches(row, filter) then [row] else []) + Scan(store, table, filter, keys[1..])
  }

  /** The first WHERE column that is the primary key or indexed. */
  function IndexColumn(schema: Schema, filter: Where): Option<string> {
    if filter == [] then None
    else if Some(filter[0].0) == schema.primaryKey || filter[0].0 in schema.indexes then Some(filter[0].0)
    else IndexColumn(schema, filter[1..])
  }

  function Lookup(filter: Where, col: string): Value {
    if filter == [] then NoneValue else if filter[0].0 == col then filter[0].1 else Lookup(filter[1..], col)
  }

  /** The row an index entry leads to, if it still exists and matches. */
  function FetchOne(db: Db, table: string, filter: Where, r: string): seq<Row> {
    var found := GetCurrent(db, RowKey(table, r));
    if found.Some? && found.value.RowData? && Matches(found.value.data, filter) then [found.value.data] else []
  }

  function Fetch(db: Db, table: string, filter: Where, entries: seq<string>): seq<Row> {
    if entries == [] then [] else FetchOne(db, table, filter, entries[0]) + Fetch(db, table, filter, entries[1..])
  }

  ghost function SelectWithWhereIndex(db: Db, table: string, filter: Where, schema: Schema): seq<Row> {
    match IndexColumn(schema, filter)
    case None => []
    case Some(col) =>
      var value := Str(Lookup(filter, col));
      if schema.primaryKey == Some(col) then Fetch(db, table, filter, [value])
      else Fetch(db, table, filter, Listing(EntryRows(db.store.Keys, table, col, value)))
  }

  ghost function Select(db: Db, table: string, filter: Where): seq<Row> {
    if !(SchemaKey(table) in db.store && db.store[SchemaKey(table)].SchemaData?) then []
    else
      var schema := db.store[SchemaKey(table)].schema;
      if IndexColumn(schema, filter).Some? then SelectWithWhereIndex(db, table, filter, schema)
      else Scan(db.store, table, filter, Listing(RowKeys(db.store, table)))
  }
}
