/** Index agreement over every run of autocommit INSERT, UPDATE and DELETE statements. */
module DbRuns {
  import opened Wrappers
  import opened DbTypes
  import opened KeyOrder
  import opened DbModel
  import opened DbTransactions
  import opened DbIndexes
  import opened DbUpdates

  datatype Statement =
    | InsertInto(table: string, columns: seq<string>, values: seq<Value>)
    | UpdateSet(table: string, changes: Row, filter: Where)
    | DeleteFrom(table: string, filter: Where)

  ghost function Execute(db: Db, st: Statement): (Db, Response) {
    match st
    case InsertInto(table, columns, values) => DbModel.Insert(db, table, columns, values)
    case UpdateSet(table, changes, filter) => Update(db, table, changes, filter, Listing(RowKeys(db.store, table)))
    case DeleteFrom(table, filter) => DeleteWhere(db, table, filter, Listing(RowKeys(db.store, table)))
  }

  ghost function ExecuteAll(db: Db, run: seq<Statement>): Db
    decreases |run|
  {
    if run == [] then db else ExecuteAll(Execute(db, run[0]).0, run[1..])
  }

  /** Every table's rows, entries and UNIQUE columns are in order. */
  ghost predicate AllFine(s: Store) {
    forall t :: SchemaKey(t) in s ==> TableFine(s, t)
  }

  /** What the run's statements must respect, all of it visible beforehand: inserts supply the primary key,
      and no update clashes. */
  ghost predicate Admissible(db: Db, st: Statement) {
    SchemaKey(st.table) in db.store && db.store[SchemaKey(st.table)].SchemaData? ==>
      var schema := SchemaAt(db.store, st.table);
      match st
      case InsertInto(_, columns, values) => SuppliesKey(schema, Data(columns, values))
      case UpdateSet(_, changes, filter) => !UpdateClashes(db.store, st.table, schema, changes, filter)
      case DeleteFrom(_, _) => true
  }

  ghost predicate AllAdmissible(db: Db, run: seq<Statement>)
    decreases |run|
  {
    run != [] ==> Admissible(db, run[0]) && AllAdmissible(Execute(db, run[0]).0, run[1..])
  }

  lemma FineElsewhere(s: Store, s': Store, table: string, t: string)
    requires SameElsewhere(s, s', table) && t != table && TableFine(s, t)
    ensures TableFine(s', t)
  {
    var schema := SchemaAt(s, t);
    assert forall r :: (RowKey(t, r) in s' <==> RowKey(t, r) in s) && RowAt(s', t, r) == RowAt(s, t, r) by {
      assert forall r :: RowKey(t, r).table == t;
    }
    forall col, value, r
      ensures IdxKey(t, col, value, r) in s' <==> Holds(s', t, schema, col, value, r)
    {
      assert IdxKey(t, col, value, r).table == t;
      assert IdxKey(t, col, value, r) in s <==> Holds(s, t, schema, col, value, r);
    }
    assert SchemaKey(t).table == t;
  }

  lemma StatementKeeps(db: Db, st: Statement)
    requires Autocommit(db) && AllFine(db.store) && Admissible(db, st)
    ensures Autocommit(Execute(db, st).0) && AllFine(Execute(db, st).0.store)
  {
    hide TableOk, SuppliesKey, DbModel.Insert, Update, DeleteWhere, Lists, UpdateClashes;
    var db' := Execute(db, st).0;
    if SchemaKey(st.table) in db.store && db.store[SchemaKey(st.table)].SchemaData? {
      match st {
        case InsertInto(table, columns, values) => InsertKeeps(db, table, columns, values);
        case UpdateSet(table, changes, filter) =>
          UpdateKeepsIffNoClash(db, table, changes, filter, Listing(RowKeys(db.store, table)));
        case DeleteFrom(table, filter) => DeleteKeeps(db, table, filter, Listing(RowKeys(db.store, table)));
      }
      forall t | SchemaKey(t) in db'.store ensures TableFine(db'.store, t) {
        if t != st.table {
          assert SchemaKey(t).table == t;
          assert SchemaKey(t) in db.store;
          FineElsewhere(db.store, db'.store, st.table, t);
        }
      }
    } else {
      NoTable(db, st);
    }
  }

  lemma NoTable(db: Db, st: Statement)
    requires Autocommit(db) && !(SchemaKey(st.table) in db.store && db.store[SchemaKey(st.table)].SchemaData?)
    ensures Execute(db, st) == (db, NoSuchTable)
  {
  }

  /** Over every admissible run, index entries, UNIQUE columns and row keys stay exact for every table. */
  lemma {:induction false} AgreementOverRuns(db: Db, run: seq<Statement>)
    requires Autocommit(db) && AllFine(db.store) && AllAdmissible(db, run)
    ensures Autocommit(ExecuteAll(db, run)) && AllFine(ExecuteAll(db, run).store)
    decreases |run|
  {
    hide AllFine, Admissible, Execute;
    if run != [] {
      StatementKeeps(db, run[0]);
      AgreementOverRuns(Execute(db, run[0]).0, run[1..]);
    }
  }
}
