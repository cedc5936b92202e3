/** What the statements do to the rows, in terms of the rows alone: which rows a
    filter meets, and what INSERT, UPDATE, DELETE and SELECT make of them, answer
    and log. */
module DbMeaning {
  import opened Wrappers
  import opened DbTypes
  import opened KeyOrder
  import opened DbModel
  import opened DbTransactions
  import opened DbIndexes
  import opened DbUpdates
  import opened DbSelect

  // ---- Text of values ----

  /** The number a text of decimal digits stands for. */
  function NumberOf(s: string): int {
    if s == [] then 0 else 10 * NumberOf(s[..|s| - 1]) + (s[|s| - 1] as int - '0' as int)
  }

  /** `str` of a natural number: its decimal digits, without a leading zero. */
  lemma {:induction false} DecimalReads(n: nat)
    ensures NumberOf(Decimal(n)) == n
    ensures forall i :: 0 <= i < |Decimal(n)| ==> '0' <= Decimal(n)[i] <= '9'
    ensures Decimal(n)[0] == '0' <==> n == 0
    decreases n
  {
    var s := Decimal(n);
    if n >= 10 {
      DecimalReads(n / 10);
      assert s[..|s| - 1] == Decimal(n / 10);
    } else {
      assert s[..|s| - 1] == [];
    }
  }

  /** The column's text, "None" where the row lacks it. */
  function TextOf(row: Row, col: string): string {
    if col in row then Str(row[col]) else "None"
  }

  // ---- The rows a filter meets ----

  /** A stored row every condition of the filter holds of. */
  ghost predicate Meets(s: Store, table: string, filter: Where, r: string) {
    && RowKey(table, r) in s
    && forall i :: 0 <= i < |filter| ==> TextOf(RowAt(s, table, r), filter[i].0) == Str(filter[i].1)
  }

  /** The row keys of the rows that meet the filter. */
  ghost function Met(s: Store, table: string, filter: Where): (m: set<string>)
    ensures forall r :: r in m <==> Meets(s, table, filter, r)
  {
    assert forall r :: RowKey(table, r) in s ==> RowKey(table, r).row == r;
    set k | k in s && k.RowKey? && k.table == table && Meets(s, table, filter, k.row) :: k.row
  }

  /** The stored rows under some keys, in their order. */
  function RowsAt(s: Store, table: string, keys: seq<string>): (rows: seq<Row>)
    ensures |rows| == |keys| && forall i :: 0 <= i < |keys| ==> rows[i] == RowAt(s, table, keys[i])
  {
    if keys == [] then [] else [RowAt(s, table, keys[0])] + RowsAt(s, table, keys[1..])
  }

  function Picked(s: Store, table: string, filter: Where, keys: seq<string>): seq<string> {
    if keys == [] then []
    else (if Matches(RowAt(s, table, keys[0]), filter) then [keys[0]] else []) + Picked(s, table, filter, keys[1..])
  }

  lemma MeetsIff(s: Store, table: string, filter: Where, r: string)
    requires RowKey(table, r) in s
    ensures Meets(s, table, filter, r) <==> Matches(RowAt(s, table, r), filter)
  {
  }

  lemma SortedTail(keys: seq<string>)
    requires Sorted(keys) && keys != []
    ensures Sorted(keys[1..]) && forall k :: k in keys[1..] ==> Leq(keys[0], k) && keys[0] != k
  {
    hide Leq;
  }

  lemma SortedCons(k: string, rest: seq<string>)
    requires Sorted(rest) && forall j :: 0 <= j < |rest| ==> Leq(k, rest[j]) && k != rest[j]
    ensures Sorted([k] + rest) && [] + rest == rest
  {
    hide Leq;
  }

  lemma SortedNone()
    ensures Sorted([])
  {
  }

  lemma {:induction false} PickedAre(s: Store, table: string, filter: Where, keys: seq<string>)
    requires Sorted(keys)
    ensures Sorted(Picked(s, table, filter, keys))
    ensures forall r :: r in Picked(s, table, filter, keys) <==> r in keys && Matches(RowAt(s, table, r), filter)
    decreases |keys|
  {
    hide Matches, Leq, RowAt, Sorted;
    if keys != [] {
      var rest := Picked(s, table, filter, keys[1..]);
      SortedTail(keys);
      PickedAre(s, table, filter, keys[1..]);
      forall j | 0 <= j < |rest| ensures Leq(keys[0], rest[j]) && keys[0] != rest[j] {
        assert rest[j] in rest;
      }
      SortedCons(keys[0], rest);
    } else {
      SortedNone();
    }
  }

  /** Scanning the table picks the rows that meet the filter, in key order. */
  lemma PickedIsMet(s: Store, table: string, filter: Where, keys: seq<string>)
    requires Lists(keys, RowKeys(s, table))
    ensures Picked(s, table, filter, keys) == Listing(Met(s, table, filter))
  {
    hide Meets, Matches, Sorted, Picked;
    PickedAre(s, table, filter, keys);
    forall r ensures r in Picked(s, table, filter, keys) <==> r in Met(s, table, filter) {
      if RowKey(table, r) in s {
        MeetsIff(s, table, filter, r);
        assert r in keys;
      } else {
        NotStored(s, table, filter, r);
      }
    }
    ListsUnique(Picked(s, table, filter, keys), Listing(Met(s, table, filter)), Met(s, table, filter));
  }

  lemma NotStored(s: Store, table: string, filter: Where, r: string)
    requires RowKey(table, r) !in s
    ensures r !in RowKeys(s, table) && !Meets(s, table, filter, r)
  {
  }

  // ---- SELECT ----

  lemma {:induction false} ScanPicks(s: Store, table: string, filter: Where, keys: seq<string>)
    ensures Scan(s, table, filter, keys) == RowsAt(s, table, Picked(s, table, filter, keys))
    decreases |keys|
  {
    hide Matches, RowAt;
    if keys != [] {
      ScanPicks(s, table, filter, keys[1..]);
    }
  }

  /** SELECT gives exactly the rows that meet the filter, in key order, unless it looks up None in an index. */
  lemma SelectMeans(db: Db, table: string, filter: Where)
    requires Autocommit(db) && TableFine(db.store, table)
    requires var col := IndexColumn(SchemaAt(db.store, table), filter);
             col.Some? ==> Str(Lookup(filter, col.value)) != "None"
    ensures Select(db, table, filter) == RowsAt(db.store, table, Listing(Met(db.store, table, filter)))
  {
    hide *;
    var keys := Listing(RowKeys(db.store, table));
    SelectIsScan(db, table, filter);
    ScanPicks(db.store, table, filter, keys);
    PickedIsMet(db.store, table, filter, keys);
  }

  // ---- DELETE ----

  lemma {:induction false} DeleteRowsMeans(db: Db, table: string, schema: Schema, filter: Where, keys: seq<string>,
                                           snapshot: Store)
    requires Autocommit(db)
    ensures var (db', rows) := DeleteRows(db, table, schema, filter, keys, snapshot);
            var hit := Picked(snapshot, table, filter, keys);
            && Autocommit(db') && db'.binlog == db.binlog && rows == RowsAt(snapshot, table, hit)
            && (forall r :: RowKey(table, r) in db'.store <==> RowKey(table, r) in db.store && r !in hit)
            && (forall k :: k in db'.store ==> k in db.store && db'.store[k] == db.store[k])
    decreases |keys|
  {
    hide Matches, RowAt, RemoveEntries, EntryKeys, RowsAt;
    RowsAtUnfold(snapshot, table, Picked(snapshot, table, filter, keys));
    if keys != [] {
      var row := RowAt(snapshot, table, keys[0]);
      if Matches(row, filter) {
        var gone := Delete(db, RowKey(table, keys[0]));
        RemoveEntriesStore(gone, table, row, keys[0], schema.indexes);
        EntriesOnly(table, row, keys[0], schema.indexes);
        DeleteRowsMeans(RemoveEntries(gone, table, row, keys[0], schema.indexes), table, schema, filter, keys[1..],
                        snapshot);
      } else {
        DeleteRowsMeans(db, table, schema, filter, keys[1..], snapshot);
      }
    }
  }

  lemma RowsAtUnfold(s: Store, table: string, keys: seq<string>)
    ensures keys == [] ==> RowsAt(s, table, keys) == []
    ensures keys != [] ==> RowsAt(s, table, keys) == [RowAt(s, table, keys[0])] + RowsAt(s, table, keys[1..])
  {
  }

  lemma EntriesOnly(table: string, row: Row, r: string, cols: seq<string>)
    ensures forall k :: k in EntryKeys(table, row, r, cols) ==> k.IdxKey?
  {
  }

  /** DELETE takes away exactly the rows that meet the filter, counts them, and logs them in key order. */
  lemma DeleteMeans(db: Db, table: string, filter: Where, keys: seq<string>)
    requires Autocommit(db) && TableFine(db.store, table) && Lists(keys, RowKeys(db.store, table))
    ensures var (db', response) := DeleteWhere(db, table, filter, keys);
            var met := Met(db.store, table, filter);
            && (forall r :: RowKey(table, r) in db'.store <==> RowKey(table, r) in db.store && r !in met)
            && (forall k :: k in db'.store ==> k in db.store && db'.store[k] == db.store[k])
            && response == Deleted(|met|)
            && db'.binlog == db.binlog + if met == {} then []
                                         else [DeleteEvent(table, filter, RowsAt(db.store, table, Listing(met)))]
  {
    hide TableOk, DeleteRows, Met, Picked, Sorted, RowsAt;
    var met := Met(db.store, table, filter);
    PickedIsMet(db.store, table, filter, keys);
    DeleteRowsMeans(db, table, SchemaAt(db.store, table), filter, keys, db.store);
    ListingSize(met);
    assert db.binlog + [] == db.binlog;
  }

  lemma {:induction false} ListSize(s: seq<string>, keys: set<string>)
    requires Lists(s, keys)
    ensures |s| == |keys|
    decreases |s|
  {
    if s == [] {
      assert keys == {};
    } else {
      assert s[0] in s;
      ListsTail(s, keys);
      ListSize(s[1..], keys - {s[0]});
    }
  }

  lemma ListingSize(keys: set<string>)
    ensures |Listing(keys)| == |keys| && (Listing(keys) == [] <==> keys == {})
  {
    ListSize(Listing(keys), keys);
  }

  // ---- UPDATE that leaves the primary key alone ----

  /** The rows under `done` have the changes; the others are as they were. */
  ghost predicate Changed(s: Store, s': Store, table: string, changes: Row, done: seq<string>) {
    forall r ::
      && (RowKey(table, r) in s' <==> RowKey(table, r) in s)
      && (RowKey(table, r) in s ==>
            RowAt(s', table, r) == if r in done then RowAt(s, table, r) + changes else RowAt(s, table, r))
  }

  /** The rows under some keys, with the changes. */
  function ChangedRows(s: Store, table: string, changes: Row, keys: seq<string>): (rows: seq<Row>)
    ensures |rows| == |keys| && forall i :: 0 <= i < |keys| ==> rows[i] == RowAt(s, table, keys[i]) + changes
  {
    if keys == [] then [] else [RowAt(s, table, keys[0]) + changes] + ChangedRows(s, table, changes, keys[1..])
  }

  /** One row of an UPDATE that stays under its key: written either way, and logged if it is accepted. */
  lemma UnmovedRow(db: Db, table: string, schema: Schema, changes: Row, r: string)
    requires Autocommit(db) && TableOk(db.store, table, schema) && RowKey(table, r) in db.store
    requires !SetsKey(schema, changes)
    ensures var u := UpdateRow(db, table, schema, changes, r, RowAt(db.store, table, r));
            && Autocommit(u.db) && u.db.binlog == db.binlog && Changed(db.store, u.db.store, table, changes, [r])
            && (u.error.Some? <==> HeldElsewhere(db.store, table, schema, changes, r))
            && (u.error.Some? ==> u.error.value.DuplicateUnique? && TouchesUnique(schema, changes))
            && (u.error.None? ==> u.rows == [RowAt(db.store, table, r) + changes] && TableOk(u.db.store, table, schema)
                                  && RowReplaced(db.store, u.db.store, table, schema, changes, r))
  {
    hide *;
    UnmovedWritten(db, table, schema, changes, r);
    UpdateRowKeepsIff(db, table, schema, changes, r);
    TableUnique(db.store, table, schema);
    UnmovedClashIff(db.store, table, schema, changes, r);
    KeepsItsKey(schema, changes, r, RowAt(db.store, table, r));
  }

  lemma KeepsItsKey(schema: Schema, changes: Row, r: string, before: Row)
    requires !SetsKey(schema, changes)
    ensures NewKey(schema, changes, r, before) == r && ChangedRow(schema, changes, r, before) == before + changes
  {
  }

  lemma UnmovedWritten(db: Db, table: string, schema: Schema, changes: Row, r: string)
    requires Autocommit(db) && RowKey(table, r) in db.store && !SetsKey(schema, changes)
    ensures var u := UpdateRow(db, table, schema, changes, r, RowAt(db.store, table, r));
            && Autocommit(u.db) && u.db.binlog == db.binlog && Changed(db.store, u.db.store, table, changes, [r])
            && (u.error.None? ==> u.rows == [RowAt(db.store, table, r) + changes])
  {
    var before := RowAt(db.store, table, r);
    UpdateRowUnfolds(db, table, schema, changes, r);
    EntriesOnly(table, before, r, schema.indexes);
    EntriesOnly(table, before + changes, r, schema.indexes);
    WrittenIsChanged(db.store, table, schema, changes, r);
    hide UpdateRow, TouchesUnique, TouchesIndex, CheckUnique, EntryKeys, Written, Changed, Marked;
    var was, now := EntryKeys(table, before, r, schema.indexes), EntryKeys(table, before + changes, r, schema.indexes);
    EntriesDoNotMatter(db.store, Written(db.store, table, schema, changes, r), table, changes, [r], was, now);
  }

  lemma WrittenIsChanged(s: Store, table: string, schema: Schema, changes: Row, r: string)
    requires RowKey(table, r) in s && !SetsKey(schema, changes)
    ensures Changed(s, Written(s, table, schema, changes, r), table, changes, [r])
  {
  }

  lemma EntriesDoNotMatter(s: Store, s': Store, table: string, changes: Row, done: seq<string>, was: set<Key>,
                           now: set<Key>)
    requires Changed(s, s', table, changes, done)
    requires (forall k :: k in was ==> k.IdxKey?) && forall k :: k in now ==> k.IdxKey?
    ensures Changed(s, s' - was + Marked(now), table, changes, done)
  {
    var s2 := s' - was + Marked(now);
    assert forall r :: RowKey(table, r) in s2 <==> RowKey(table, r) in s';
    assert forall r :: RowAt(s2, table, r) == RowAt(s', table, r);
    hide RowAt, Marked;
  }

  /** Once a row was given the UNIQUE value, the next one is not. */
  lemma NextIsHeld(s: Store, s': Store, table: string, schema: Schema, changes: Row, r: string, q: string)
    requires TouchesUnique(schema, changes) && r != q && RowKey(table, r) in s'
    requires Changed(s, s', table, changes, [r])
    ensures HeldElsewhere(s', table, schema, changes, q)
  {
    var u :| u in changes && u in schema.unique;
    assert RowAt(s', table, r) == RowAt(s, table, r) + changes;
    assert u in RowAt(s', table, r) && Str(RowAt(s', table, r)[u]) == Str(changes[u]);
  }

  lemma ChangedMore(s: Store, s1: Store, s2: Store, table: string, changes: Row, r: string, done: seq<string>)
    requires Changed(s, s1, table, changes, [r]) && Changed(s1, s2, table, changes, done) && r !in done
    ensures Changed(s, s2, table, changes, [r] + done)
  {
    hide RowAt;
  }

  lemma NothingChanged(s: Store, table: string, changes: Row)
    ensures Changed(s, s, table, changes, [])
  {
  }

  lemma PickedUnfold(s: Store, table: string, filter: Where, keys: seq<string>)
    requires keys != []
    ensures Picked(s, table, filter, keys)
            == (if Matches(RowAt(s, table, keys[0]), filter) then [keys[0]] else [])
                + Picked(s, table, filter, keys[1..])
    ensures Picked(s, table, filter, []) == []
  {
  }

  lemma ChangedRowsUnfold(s: Store, table: string, changes: Row, r: string, keys: seq<string>)
    ensures ChangedRows(s, table, changes, [r] + keys)
            == [RowAt(s, table, r) + changes] + ChangedRows(s, table, changes, keys)
    ensures ChangedRows(s, table, changes, []) == []
  {
    assert ([r] + keys)[1..] == keys;
  }

  /** How many of the rows that meet the filter are written. */
  lemma {:induction false} UnmovedMeans(db: Db, table: string, schema: Schema, changes: Row, filter: Where,
                                        keys: seq<string>, snapshot: Store) returns (n: nat)
    requires Autocommit(db) && TableOk(db.store, table, schema) && !SetsKey(schema, changes)
    requires Unvisited(db.store, table, keys, snapshot)
    ensures var u := UpdateRows(db, table, schema, changes, filter, keys, snapshot);
            var hit := Picked(snapshot, table, filter, keys);
            && n <= |hit| && Autocommit(u.db) && u.db.binlog == db.binlog
            && Changed(db.store, u.db.store, table, changes, hit[..n])
            && (u.error.None? ==> n == |hit| && u.rows == ChangedRows(snapshot, table, changes, hit))
            && (u.error.Some? ==> u.error.value.DuplicateUnique? && TouchesUnique(schema, changes) && hit != []
                                  && n == if HeldElsewhere(db.store, table, schema, changes, hit[0]) then 1 else 2)
    decreases |keys|
  {
    hide TableOk, UpdateRow, HeldElsewhere, TouchesUnique, Changed, Picked, Matches, ChangedRows, Sorted, RowReplaced;
    if keys == [] {
      n := 0;
      assert Picked(snapshot, table, filter, keys)[..n] == [];
      NothingChanged(db.store, table, changes);
      PickedNone(snapshot, table, filter, changes);
    } else {
      UnvisitedTail(db.store, table, keys, snapshot);
      var r := keys[0];
      var rest := Picked(snapshot, table, filter, keys[1..]);
      PickedUnfold(snapshot, table, filter, keys);
      if !Matches(RowAt(snapshot, table, r), filter) {
        n := UnmovedMeans(db, table, schema, changes, filter, keys[1..], snapshot);
        assert [] + rest == rest;
      } else {
        UnmovedRow(db, table, schema, changes, r);
        ChangedRowsUnfold(snapshot, table, changes, r, rest);
        var one := UpdateRow(db, table, schema, changes, r, RowAt(snapshot, table, r));
        if one.error.Some? {
          n := 1;
          assert ([r] + rest)[..1] == [r];
        } else {
          UnvisitedAfter(db.store, one.db.store, table, schema, changes, keys, snapshot);
          var m := UnmovedMeans(one.db, table, schema, changes, filter, keys[1..], snapshot);
          n := m + 1;
          NotAgain(snapshot, table, filter, keys);
          ChangedMore(db.store, one.db.store,
                      UpdateRows(one.db, table, schema, changes, filter, keys[1..], snapshot).db.store,
                      table, changes, r, rest[..m]);
          assert ([r] + rest)[..n] == [r] + rest[..m];
          if rest != [] && TouchesUnique(schema, changes) {
            StillThere(db.store, one.db.store, table, changes, r);
            NextIsHeld(db.store, one.db.store, table, schema, changes, r, rest[0]);
          }
        }
      }
    }
  }

  lemma PickedNone(s: Store, table: string, filter: Where, changes: Row)
    ensures Picked(s, table, filter, []) == [] && ChangedRows(s, table, changes, []) == []
  {
  }

  lemma StillThere(s: Store, s': Store, table: string, changes: Row, r: string)
    requires Changed(s, s', table, changes, [r]) && RowKey(table, r) in s
    ensures RowKey(table, r) in s'
  {
  }

  /** A key is listed once. */
  lemma NotAgain(s: Store, table: string, filter: Where, keys: seq<string>)
    requires keys != [] && Sorted(keys)
    ensures keys[0] !in Picked(s, table, filter, keys[1..])
  {
    hide Matches, Leq;
    PickedAre(s, table, filter, keys[1..]);
  }

  /** UPDATE changes exactly the rows that meet the filter, counts them and logs them as they are now, in key
      order.  If it clashes it writes the first row that clashes, at the latest the second, and logs nothing. */
  lemma UpdateMeans(db: Db, table: string, changes: Row, filter: Where, keys: seq<string>) returns (n: nat)
    requires Autocommit(db) && TableFine(db.store, table) && Lists(keys, RowKeys(db.store, table))
    requires !SetsKey(SchemaAt(db.store, table), changes)
    ensures var (db', response) := Update(db, table, changes, filter, keys);
            var s, schema, met := db.store, SchemaAt(db.store, table), Met(db.store, table, filter);
            var hit := Listing(met);
            && n <= |hit| && Changed(s, db'.store, table, changes, hit[..n])
            && (if UpdateClashes(s, table, schema, changes, filter) then
                  response.DuplicateUnique? && db'.binlog == db.binlog && hit != []
                  && n == if HeldElsewhere(s, table, schema, changes, hit[0]) then 1 else 2
                else
                  response == Updated(|met|) && n == |hit|
                  && db'.binlog == db.binlog + if met == {} then []
                       else [UpdateEvent(table, changes, filter, ChangedRows(s, table, changes, hit))])
  {
    hide TableOk, UpdateRows, Met, Picked, Sorted, ChangedRows, TouchesUnique, HeldElsewhere, UpdateClashes, Changed,
         SameElsewhere;
    var s, schema, met := db.store, SchemaAt(db.store, table), Met(db.store, table, filter);
    forall i | 0 <= i < |keys| ensures RowKey(table, keys[i]) in s {
      assert keys[i] in keys;
    }
    PickedIsMet(s, table, filter, keys);
    ListingSize(met);
    n := UnmovedMeans(db, table, schema, changes, filter, keys, s);
    UpdateKeepsIffNoClash(db, table, changes, filter, keys);
    ClashTouches(s, table, schema, changes, filter);
    assert db.binlog + [] == db.binlog;
  }

  lemma ClashTouches(s: Store, table: string, schema: Schema, changes: Row, filter: Where)
    requires UpdateClashes(s, table, schema, changes, filter) ==> !SetsKey(schema, changes)
    ensures UpdateClashes(s, table, schema, changes, filter) ==> TouchesUnique(schema, changes)
  {
  }

  // ---- UPDATE that sets the primary key ----

  /** The row lies under its new key, and the others are as they were. */
  ghost predicate Moved(s: Store, s': Store, table: string, r: string, nk: string, row: Row) {
    && (forall q :: RowKey(table, q) in s' <==> q == nk || (q != r && RowKey(table, q) in s))
    && RowAt(s', table, nk) == row
    && (forall q :: q != nk && q != r ==> RowAt(s', table, q) == RowAt(s, table, q))
  }

  /** The changed row; a moved one has its new key as `id`. */
  function MovedRow(before: Row, changes: Row, r: string, nk: string): Row {
    if nk == r then before + changes else before + changes + map["id" := TextValue(nk)]
  }

  lemma MovedIs(schema: Schema, changes: Row, r: string, before: Row)
    requires SetsKey(schema, changes)
    ensures var nk := Str(changes[schema.primaryKey.value]);
            NewKey(schema, changes, r, before) == nk
                && ChangedRow(schema, changes, r, before) == MovedRow(before, changes, r, nk)
  {
  }

  lemma WrittenIsMoved(s: Store, table: string, schema: Schema, changes: Row, r: string, was: set<Key>, now: set<Key>)
    requires (forall k :: k in was ==> k.IdxKey?) && forall k :: k in now ==> k.IdxKey?
    ensures var before := RowAt(s, table, r);
            var nk, row := NewKey(schema, changes, r, before), ChangedRow(schema, changes, r, before);
            && Moved(s, Written(s, table, schema, changes, r), table, r, nk, row)
            && Moved(s, Written(s, table, schema, changes, r) - was + Marked(now), table, r, nk, row)
  {
    hide NewKey, ChangedRow;
  }

  /** One row whose key is set: refused, or written under the new key. */
  lemma MovedOne(db: Db, table: string, schema: Schema, changes: Row, r: string)
    requires Autocommit(db) && TableOk(db.store, table, schema) && RowKey(table, r) in db.store
             && SetsKey(schema, changes)
    ensures var before := RowAt(db.store, table, r);
            var u, nk := UpdateRow(db, table, schema, changes, r, before), Str(changes[schema.primaryKey.value]);
            var row := MovedRow(before, changes, r, nk);
            && Autocommit(u.db) && u.db.binlog == db.binlog
            && (if nk != r && RowKey(table, nk) in db.store then u.error == Some(DuplicateKey(nk)) && u.db == db
                else
                  && Moved(db.store, u.db.store, table, r, nk, row)
                  && (if TouchesUnique(schema, changes) && RowClashes(db.store, table, schema, changes, r)
                      then u.error.Some? && u.error.value.DuplicateUnique? else u.error.None? && u.rows == [row]))
  {
    var before := RowAt(db.store, table, r);
    var row := ChangedRow(schema, changes, r, before);
    var nk := NewKey(schema, changes, r, before);
    MovedIs(schema, changes, r, before);
    UpdateRowUnfolds(db, table, schema, changes, r);
    RowOutcome(db, table, schema, changes, r);
    EntriesOnly(table, before, r, schema.indexes);
    EntriesOnly(table, row, nk, schema.indexes);
    WrittenIsMoved(db.store, table, schema, changes, r, EntryKeys(table, before, r, schema.indexes),
                   EntryKeys(table, row, nk, schema.indexes));
    hide *;
  }

  /** Once the new key is taken, a further matching row is refused. */
  lemma {:induction false} RestMeans(db: Db, table: string, schema: Schema, changes: Row, filter: Where,
                                     keys: seq<string>, snapshot: Store)
    requires Autocommit(db) && SetsKey(schema, changes)
    requires var nk := Str(changes[schema.primaryKey.value]); RowKey(table, nk) in db.store && nk !in keys
    ensures UpdateRows(db, table, schema, changes, filter, keys, snapshot)
            == UpdateState(db, [], if Picked(snapshot, table, filter, keys) == [] then None
                                   else Some(DuplicateKey(Str(changes[schema.primaryKey.value]))))
    decreases |keys|
  {
    hide Str, Matches;
    if keys != [] {
      RestMeans(db, table, schema, changes, filter, keys[1..], snapshot);
    }
  }

  lemma {:induction false} MovedMeans(db: Db, table: string, schema: Schema, changes: Row, filter: Where,
                                      keys: seq<string>, snapshot: Store)
    requires Autocommit(db) && TableOk(db.store, table, schema) && SetsKey(schema, changes)
    requires Unvisited(db.store, table, keys, snapshot)
    ensures var u := UpdateRows(db, table, schema, changes, filter, keys, snapshot);
            var hit, nk := Picked(snapshot, table, filter, keys), Str(changes[schema.primaryKey.value]);
            && u.db.binlog == db.binlog && Autocommit(u.db)
            && (if hit == [] then u == UpdateState(db, [], None)
                else if nk != hit[0] && RowKey(table, nk) in db.store then
                  u.error == Some(DuplicateKey(nk)) && u.db == db
                else
                  var row := MovedRow(RowAt(snapshot, table, hit[0]), changes, hit[0], nk);
                  && Moved(db.store, u.db.store, table, hit[0], nk, row)
                  && (if TouchesUnique(schema, changes) && RowClashes(db.store, table, schema, changes, hit[0])
                      then u.error.Some? && u.error.value.DuplicateUnique?
                      else if |hit| == 1 then u.error.None? && u.rows == [row]
                      else u.error == Some(DuplicateKey(nk))))
    decreases |keys|
  {
    hide TableOk, UpdateRow, TouchesUnique, RowClashes, Moved, MovedRow, Picked, Matches, Sorted, Str, RowReplaced;
    if keys == [] {
      PickedNone(snapshot, table, filter, changes);
    } else {
      UnvisitedTail(db.store, table, keys, snapshot);
      var r := keys[0];
      var rest := Picked(snapshot, table, filter, keys[1..]);
      PickedUnfold(snapshot, table, filter, keys);
      if !Matches(RowAt(snapshot, table, r), filter) {
        assert [] + rest == rest;
        MovedMeans(db, table, schema, changes, filter, keys[1..], snapshot);
      } else {
        MovedOne(db, table, schema, changes, r);
        var one := UpdateRow(db, table, schema, changes, r, RowAt(snapshot, table, r));
        assert ([r] + rest)[0] == r;
        if one.error.None? {
          KeyTakenNow(db.store, one.db.store, table, schema, changes, keys, snapshot);
          RestMeans(one.db, table, schema, changes, filter, keys[1..], snapshot);
          assert one.rows + [] == one.rows;
        }
      }
    }
  }

  lemma KeyTakenNow(s: Store, s': Store, table: string, schema: Schema, changes: Row, keys: seq<string>,
                    snapshot: Store)
    requires Unvisited(s, table, keys, snapshot) && keys != [] && SetsKey(schema, changes)
    requires var nk := Str(changes[schema.primaryKey.value]);
             && (nk == keys[0] || RowKey(table, nk) !in s)
             && exists row :: Moved(s, s', table, keys[0], nk, row)
    ensures var nk := Str(changes[schema.primaryKey.value]); RowKey(table, nk) in s' && nk !in keys[1..]
  {
    hide Str;
  }

  /** UPDATE that sets the primary key moves the first row that meets the filter, if the key is free; any further
      row then finds it taken, and nothing is logged. */
  lemma MoveMeans(db: Db, table: string, changes: Row, filter: Where, keys: seq<string>)
    requires Autocommit(db) && TableFine(db.store, table) && Lists(keys, RowKeys(db.store, table))
    requires SetsKey(SchemaAt(db.store, table), changes)
    ensures var (db', response) := Update(db, table, changes, filter, keys);
            var s, schema, hit := db.store, SchemaAt(db.store, table), Listing(Met(db.store, table, filter));
            var nk := Str(changes[schema.primaryKey.value]);
            if hit == [] then response == Updated(0) && db' == db
            else if nk != hit[0] && RowKey(table, nk) in s then response == DuplicateKey(nk) && db' == db
            else
              var row := MovedRow(RowAt(s, table, hit[0]), changes, hit[0], nk);
              && Moved(s, db'.store, table, hit[0], nk, row)
              && (if TouchesUnique(schema, changes) && RowClashes(s, table, schema, changes, hit[0])
                  then response.DuplicateUnique? && db'.binlog == db.binlog
                  else if |hit| == 1
                  then response == Updated(1) && db'.binlog == db.binlog + [UpdateEvent(table, changes, filter, [row])]
                  else response == DuplicateKey(nk) && db'.binlog == db.binlog)
  {
    hide TableOk, UpdateRows, Met, Picked, Sorted, TouchesUnique, RowClashes, Moved, MovedRow, Str;
    forall i | 0 <= i < |keys| ensures RowKey(table, keys[i]) in db.store {
      assert keys[i] in keys;
    }
    PickedIsMet(db.store, table, filter, keys);
    MovedMeans(db, table, SchemaAt(db.store, table), changes, filter, keys, db.store);
  }

  // ---- INSERT ----

  function PairCount(columns: seq<string>, values: seq<Value>): nat {
    if |columns| < |values| then |columns| else |values|
  }

  lemma {:induction false} DataHas(columns: seq<string>, values: seq<Value>, c: string)
    ensures c in Data(columns, values) <==> c in columns[..PairCount(columns, values)]
    decreases |columns|
  {
    var n := PairCount(columns, values);
    if n > 0 {
      DataHas(columns[1..], values[1..], c);
      assert columns[..n] == [columns[0]] + columns[1..][..n - 1];
    }
  }

  /** The last value paired with a column counts; columns without a value and values without a column do not. */
  lemma {:induction false} DataMeans(columns: seq<string>, values: seq<Value>, i: nat)
    requires i < PairCount(columns, values) && columns[i] !in columns[i + 1..PairCount(columns, values)]
    ensures columns[i] in Data(columns, values) && Data(columns, values)[columns[i]] == values[i]
    decreases |columns|
  {
    var n := PairCount(columns, values);
    if i > 0 {
      assert columns[1..][i - 1 + 1..n - 1] == columns[i + 1..n];
      DataMeans(columns[1..], values[1..], i - 1);
    } else {
      assert columns[1..][..n - 1] == columns[1..n];
      DataHas(columns[1..], values[1..], columns[0]);
    }
  }

  /** One row was stored under its key; the others are as they were. */
  ghost predicate Added(s: Store, s': Store, table: string, r: string, row: Row) {
    && (forall q :: RowKey(table, q) in s' <==> q == r || RowKey(table, q) in s)
    && RowAt(s', table, r) == row && forall q :: q != r ==> RowAt(s', table, q) == RowAt(s, table, q)
  }

  /** INSERT stores the given values, with the row's key as `id` unless that is given too, and logs the row: unless
      the key is taken, or another row has one of its UNIQUE values.  The id counter moves whenever it is used. */
  lemma InsertMeans(db: Db, table: string, columns: seq<string>, values: seq<Value>)
    requires Autocommit(db) && TableFine(db.store, table)
    ensures var (db', response) := DbModel.Insert(db, table, columns, values);
            var s, schema, data := db.store, SchemaAt(db.store, table), Data(columns, values);
            var keyed := schema.primaryKey.Some? && schema.primaryKey.value in data;
            var r := if keyed then Str(data[schema.primaryKey.value]) else Decimal(schema.nextId);
            var row := map["id" := TextValue(r)] + data;
            var s1 := if keyed then s else s[SchemaKey(table) := SchemaData(schema.(nextId := schema.nextId + 1))];
            if keyed && RowKey(table, r) in s then response == DuplicateKey(r) && db' == db
            else if !Free(s, table, schema, r, row) then response.DuplicateUnique? && db' == db.(store := s1)
            else response == Inserted && Added(s, db'.store, table, r, row)
                 && db'.binlog == db.binlog + [InsertEvent(table, row)]
  {
    hide TableOk, InsertRow, Free, Str, Decimal, Added, Data;
    var s, schema, data := db.store, SchemaAt(db.store, table), Data(columns, values);
    var keyed := schema.primaryKey.Some? && schema.primaryKey.value in data;
    var r := if keyed then Str(data[schema.primaryKey.value]) else Decimal(schema.nextId);
    var db1 := if keyed then db else Put(db, SchemaKey(table), SchemaData(schema.(nextId := schema.nextId + 1)));
    TableParts(s, table, schema);
    InsertRowMeans(db1, s, table, schema, data, r);
  }

  lemma InsertRowMeans(db: Db, s: Store, table: string, schema: Schema, data: Row, r: string)
    requires Autocommit(db) && WellFormed(schema) && IndexAgrees(s, table, schema)
    requires forall k: Key :: !k.SchemaKey? ==> (k in s <==> k in db.store) && (k in s ==> s[k] == db.store[k])
    ensures var (db', response) := InsertRow(db, table, schema, data, r);
            var row := map["id" := TextValue(r)] + data;
            if !Free(s, table, schema, r, row) then response.DuplicateUnique? && db' == db
            else response == Inserted && Added(s, db'.store, table, r, row)
                 && db'.binlog == db.binlog + [InsertEvent(table, row)]
  {
    var row := NewRow(data, r);
    CheckIffFree(db, s, table, schema, row, r);
    CheckUniqueMeans(db, table, row, r, schema.unique);
    AddEntriesStore(Put(db, RowKey(table, r), RowData(row)), table, row, r, schema.indexes);
    EntriesOnly(table, row, r, schema.indexes);
    StoredIsAdded(s, db.store, table, r, row, EntryKeys(table, row, r, schema.indexes));
    hide CheckUnique, Free, AddEntries, EntryKeys, Added, Marked, IndexAgrees, WellFormed;
  }

  lemma StoredIsAdded(s: Store, s1: Store, table: string, r: string, row: Row, entries: set<Key>)
    requires forall k :: k in entries ==> k.IdxKey?
    requires forall q :: (RowKey(table, q) in s1 <==> RowKey(table, q) in s)
                         && (RowKey(table, q) in s ==> s1[RowKey(table, q)] == s[RowKey(table, q)])
    ensures Added(s, s1[RowKey(table, r) := RowData(row)] + Marked(entries), table, r, row)
  {
  }
}
