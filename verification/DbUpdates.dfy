/** UPDATE and index agreement. */
module DbUpdates {
  import opened Wrappers
  import opened DbTypes
  import opened KeyOrder
  import opened DbModel
  import opened DbTransactions
  import opened DbIndexes

  /** The changes set the primary key, to one value for every row they apply to. */
  predicate SetsKey(schema: Schema, changes: Row) {
    schema.primaryKey.Some? && schema.primaryKey.value in changes
  }

  function NewKey(schema: Schema, changes: Row, r: string, before: Row): string {
    if schema.primaryKey.Some? && schema.primaryKey.value in changes then
      Str((before + changes)[schema.primaryKey.value])
    else r
  }

  function ChangedRow(schema: Schema, changes: Row, r: string, before: Row): Row {
    if NewKey(schema, changes, r, before) != r
    then (before + changes)["id" := TextValue(NewKey(schema, changes, r, before))] else before + changes
  }

  /** The store after the changed row is written, before the UNIQUE check. */
  function Written(s: Store, table: string, schema: Schema, changes: Row, r: string): Store {
    var before := RowAt(s, table, r);
    var nk, row := NewKey(schema, changes, r, before), ChangedRow(schema, changes, r, before);
    (s - {RowKey(table, r)})[RowKey(table, nk) := RowData(row)]
  }

  lemma UpdateRowUnfolds(db: Db, table: string, schema: Schema, changes: Row, r: string)
    requires Autocommit(db) && RowKey(table, r) in db.store
    ensures var before := RowAt(db.store, table, r);
            var nk, row := NewKey(schema, changes, r, before), ChangedRow(schema, changes, r, before);
            var u := UpdateRow(db, table, schema, changes, r, before);
            var db2 := db.(store := Written(db.store, table, schema, changes, r));
            if nk != r && RowKey(table, nk) in db.store then u == UpdateState(db, [], Some(DuplicateKey(nk)))
            else if TouchesUnique(schema, changes) && CheckUnique(db2, table, row, nk, schema.unique).Some? then
              u == UpdateState(db2, [], CheckUnique(db2, table, row, nk, schema.unique))
            else if TouchesIndex(schema, changes) || nk != r then
              u == UpdateState(db.(store := db2.store - EntryKeys(table, before, r, schema.indexes)
                                            + Marked(EntryKeys(table, row, nk, schema.indexes))), [row], None)
            else u == UpdateState(db2, [row], None)
  {
    hide CheckUnique;
    var before := RowAt(db.store, table, r);
    var nk, row := NewKey(schema, changes, r, before), ChangedRow(schema, changes, r, before);
    var db2 := db.(store := Written(db.store, table, schema, changes, r));
    if nk == r {
      assert (db.store - {RowKey(table, r)})[RowKey(table, r) := RowData(row)]
             == db.store[RowKey(table, r) := RowData(row)];
    }
    RemoveEntriesStore(db2, table, before, r, schema.indexes);
    AddEntriesStore(db2.(store := db2.store - EntryKeys(table, before, r, schema.indexes)), table, row, nk,
                    schema.indexes);
  }

  /** A changed row still lies under its key. */
  lemma ChangedKeyOk(s: Store, table: string, schema: Schema, changes: Row, r: string)
    requires TableOk(s, table, schema) && RowKey(table, r) in s
    ensures var before := RowAt(s, table, r);
            KeyOk(schema, NewKey(schema, changes, r, before), ChangedRow(schema, changes, r, before))
  {
    assert KeyOk(schema, r, RowAt(s, table, r));
  }

  /** The row and its entries after an accepted change: the new ones in place of the old. */
  function Replaced(s: Store, table: string, schema: Schema, changes: Row, r: string): Store {
    var before := RowAt(s, table, r);
    WithRow(WithoutRow(s, table, schema, r), table, schema, NewKey(schema, changes, r, before),
            ChangedRow(schema, changes, r, before))
  }

  lemma ReindexedReplaces(s: Store, table: string, schema: Schema, changes: Row, r: string)
    ensures var before := RowAt(s, table, r);
            var nk, row := NewKey(schema, changes, r, before), ChangedRow(schema, changes, r, before);
            Written(s, table, schema, changes, r) - EntryKeys(table, before, r, schema.indexes)
            + Marked(EntryKeys(table, row, nk, schema.indexes)) == Replaced(s, table, schema, changes, r)
  {
    hide NewKey, ChangedRow;
    var before := RowAt(s, table, r);
    var nk, row := NewKey(schema, changes, r, before), ChangedRow(schema, changes, r, before);
    var was, now := EntryKeys(table, before, r, schema.indexes), EntryKeys(table, row, nk, schema.indexes);
    assert RowKey(table, nk) !in was && RowKey(table, nk) !in now;
  }

  /** When no indexed column changes the entries are already right. */
  lemma UntouchedReplaces(s: Store, table: string, schema: Schema, changes: Row, r: string)
    requires IndexAgrees(s, table, schema) && RowKey(table, r) in s
    requires !TouchesIndex(schema, changes) && NewKey(schema, changes, r, RowAt(s, table, r)) == r
    ensures Written(s, table, schema, changes, r) == Replaced(s, table, schema, changes, r)
  {
    var before := RowAt(s, table, r);
    var was := EntryKeys(table, before, r, schema.indexes);
    assert forall c :: c in schema.indexes ==> c !in changes;
    assert was == EntryKeys(table, before + changes, r, schema.indexes);
    forall k | k in was ensures k in s && s[k] == Marker {
      assert Holds(s, table, schema, k.col, k.value, r);
      assert IdxKey(table, k.col, k.value, r) == k;
    }
  }

  lemma AcceptedReplaces(db: Db, table: string, schema: Schema, changes: Row, r: string)
    requires Autocommit(db) && TableOk(db.store, table, schema) && RowKey(table, r) in db.store
    requires UpdateRow(db, table, schema, changes, r, RowAt(db.store, table, r)).error.None?
    ensures UpdateRow(db, table, schema, changes, r, RowAt(db.store, table, r)).db ==
            db.(store := Replaced(db.store, table, schema, changes, r))
    ensures var nk := NewKey(schema, changes, r, RowAt(db.store, table, r)); nk == r || RowKey(table, nk) !in db.store
  {
    hide CheckUnique, RowsOk, UniqueHolds, UpdateRow, IndexAgrees, Written, Replaced, NewKey, ChangedRow;
    UpdateRowUnfolds(db, table, schema, changes, r);
    ReindexedReplaces(db.store, table, schema, changes, r);
    if !TouchesIndex(schema, changes) && NewKey(schema, changes, r, RowAt(db.store, table, r)) == r {
      UntouchedReplaces(db.store, table, schema, changes, r);
    }
  }

  lemma ReplacedFrame(s: Store, table: string, schema: Schema, changes: Row, r: string)
    requires var nk := NewKey(schema, changes, r, RowAt(s, table, r)); nk == r || RowKey(table, nk) !in s
    ensures SameElsewhere(s, Replaced(s, table, schema, changes, r), table)
    ensures forall q :: q != r && RowKey(table, q) in s ==>
              RowKey(table, q) in Replaced(s, table, schema, changes, r)
              && RowAt(Replaced(s, table, schema, changes, r), table, q) == RowAt(s, table, q)
  {
    hide NewKey, ChangedRow, WithRow, WithoutRow, Str;
    var before := RowAt(s, table, r);
    WithoutRowFrame(s, table, schema, r);
    WithRowFrame(WithoutRow(s, table, schema, r), table, schema, NewKey(schema, changes, r, before),
                 ChangedRow(schema, changes, r, before));
  }

  /** A change stopped by the UNIQUE check is already written, and its row has no matching entry. */
  lemma RejectedBreaks(db: Db, table: string, schema: Schema, changes: Row, r: string)
    requires Autocommit(db) && TableOk(db.store, table, schema) && RowKey(table, r) in db.store
    requires var e := UpdateRow(db, table, schema, changes, r, RowAt(db.store, table, r)).error;
             e.Some? && !e.value.DuplicateKey?
    ensures var u := UpdateRow(db, table, schema, changes, r, RowAt(db.store, table, r));
            u.error.value.DuplicateUnique? && !IndexAgrees(u.db.store, table, schema)
  {
    hide UpdateRow, RowsOk;
    var s, before := db.store, RowAt(db.store, table, r);
    var nk, row := NewKey(schema, changes, r, before), ChangedRow(schema, changes, r, before);
    UpdateRowUnfolds(db, table, schema, changes, r);
    var s2 := Written(s, table, schema, changes, r);
    var db2 := db.(store := s2);
    CheckUniqueMeans(db2, table, row, nk, schema.unique);
    var e := CheckUnique(db2, table, row, nk, schema.unique).value;
    TakenMeans(db2, table, e.col, e.value, nk);
    var q :| q != nk && IdxKey(table, e.col, e.value, q) in s2;
    assert Holds(s, table, schema, e.col, e.value, q);
    assert Holds(s2, table, schema, e.col, e.value, nk);
    assert IdxKey(table, e.col, e.value, nk) in s2 <==> Holds(s, table, schema, e.col, e.value, nk);
  }

  // ---- One row ----

  /** The rows of a store in which one row was replaced. */
  ghost predicate RowReplaced(s: Store, s': Store, table: string, schema: Schema, changes: Row, r: string) {
    var before := RowAt(s, table, r);
    var nk := NewKey(schema, changes, r, before);
    && (forall q :: RowKey(table, q) in s' <==> q == nk || (q != r && RowKey(table, q) in s))
    && RowAt(s', table, nk) == ChangedRow(schema, changes, r, before)
    && (forall q :: q != nk && q != r && RowKey(table, q) in s ==> RowAt(s', table, q) == RowAt(s, table, q))
  }

  lemma ReplacedRows(s: Store, table: string, schema: Schema, changes: Row, r: string)
    ensures RowReplaced(s, Replaced(s, table, schema, changes, r), table, schema, changes, r)
  {
    hide NewKey, ChangedRow;
  }

  /** Replacing a row keeps UNIQUE columns unique exactly when its new values are free. */
  lemma ReplacedIsUniqueIff(s: Store, s': Store, table: string, schema: Schema, changes: Row, r: string)
    requires UniqueHolds(s, table, schema) && RowReplaced(s, s', table, schema, changes, r)
    requires var nk := NewKey(schema, changes, r, RowAt(s, table, r)); nk == r || RowKey(table, nk) !in s
    ensures UniqueHolds(s', table, schema)
            <==> Free(s, table, schema, r, ChangedRow(schema, changes, r, RowAt(s, table, r)))
  {
    hide NewKey, ChangedRow, Str;
    var before := RowAt(s, table, r);
    var nk, row := NewKey(schema, changes, r, before), ChangedRow(schema, changes, r, before);
    if UniqueHolds(s', table, schema) {
      forall u, q | u in schema.unique && u in row && q != r && RowKey(table, q) in s && u in RowAt(s, table, q)
        ensures Str(RowAt(s, table, q)[u]) != Str(row[u])
      {
        assert q != nk && RowAt(s', table, q) == RowAt(s, table, q);
      }
    }
  }

  lemma FreeKeeps(s: Store, table: string, schema: Schema, changes: Row, r: string)
    requires TableOk(s, table, schema) && RowKey(table, r) in s
    requires var nk := NewKey(schema, changes, r, RowAt(s, table, r)); nk == r || RowKey(table, nk) !in s
    requires Free(s, table, schema, r, ChangedRow(schema, changes, r, RowAt(s, table, r)))
    ensures TableOk(Replaced(s, table, schema, changes, r), table, schema)
  {
    hide RowsOk, IndexAgrees, UniqueHolds, NewKey, ChangedRow, Str;
    var before := RowAt(s, table, r);
    var nk, row := NewKey(schema, changes, r, before), ChangedRow(schema, changes, r, before);
    ChangedKeyOk(s, table, schema, changes, r);
    WithoutRowKeeps(s, table, schema, r);
    assert Free(WithoutRow(s, table, schema, r), table, schema, nk, row) by {
      WithoutRowFrame(s, table, schema, r);
    }
    WithRowKeeps(WithoutRow(s, table, schema, r), table, schema, nk, row);
  }

  /** Changing the row would break the table, as can be seen beforehand: its new key is its own or free, and
      one of its new UNIQUE values is held by another row.  When the changes set a UNIQUE column the check is
      made, and a moved row counts as another row there: its old entries are still in the index. */
  ghost predicate RowClashes(s: Store, table: string, schema: Schema, changes: Row, r: string) {
    var before := RowAt(s, table, r);
    var nk, row := NewKey(schema, changes, r, before), ChangedRow(schema, changes, r, before);
    && (nk == r || RowKey(table, nk) !in s)
    && !Free(s, table, schema, if TouchesUnique(schema, changes) then nk else r, row)
  }

  lemma WrittenEntries(s: Store, table: string, schema: Schema, changes: Row, r: string)
    ensures forall col, value, q ::
              IdxKey(table, col, value, q) in s <==>
              IdxKey(table, col, value, q) in Written(s, table, schema, changes, r)
  {
  }

  lemma WrittenElsewhere(s: Store, table: string, schema: Schema, changes: Row, r: string)
    ensures SameElsewhere(s, Written(s, table, schema, changes, r), table)
    ensures SchemaKey(table) in s ==>
              SchemaKey(table) in Written(s, table, schema, changes, r)
              && Written(s, table, schema, changes, r)[SchemaKey(table)] == s[SchemaKey(table)]
  {
  }

  /** How one row's change ends. */
  lemma RowOutcome(db: Db, table: string, schema: Schema, changes: Row, r: string)
    requires Autocommit(db) && TableOk(db.store, table, schema) && RowKey(table, r) in db.store
    ensures var u := UpdateRow(db, table, schema, changes, r, RowAt(db.store, table, r));
            var nk := NewKey(schema, changes, r, RowAt(db.store, table, r));
            && (nk != r && RowKey(table, nk) in db.store ==> u == UpdateState(db, [], Some(DuplicateKey(nk))))
            && (nk == r || RowKey(table, nk) !in db.store ==>
                  if TouchesUnique(schema, changes) && RowClashes(db.store, table, schema, changes, r)
                  then u.error.Some? && u.error.value.DuplicateUnique?
                       && u.db == db.(store := Written(db.store, table, schema, changes, r))
                       && !IndexAgrees(u.db.store, table, schema)
                  else u.error.None? && u.db == db.(store := Replaced(db.store, table, schema, changes, r)))
  {
    hide RowsOk, IndexAgrees, UniqueHolds, UpdateRow, CheckUnique, Free, Written, Replaced, NewKey, ChangedRow,
         TouchesUnique;
    var s, before := db.store, RowAt(db.store, table, r);
    var nk, row := NewKey(schema, changes, r, before), ChangedRow(schema, changes, r, before);
    UpdateRowUnfolds(db, table, schema, changes, r);
    WrittenEntries(s, table, schema, changes, r);
    CheckIffFree(db.(store := Written(s, table, schema, changes, r)), s, table, schema, row, nk);
    if nk == r || RowKey(table, nk) !in s {
      if TouchesUnique(schema, changes) && RowClashes(s, table, schema, changes, r) {
        CheckUniqueMeans(db.(store := Written(s, table, schema, changes, r)), table, row, nk, schema.unique);
        RejectedBreaks(db, table, schema, changes, r);
      } else {
        AcceptedReplaces(db, table, schema, changes, r);
      }
    }
  }

  /** One row of an UPDATE: it leaves the table in order if and only if it does not clash; stopped by a
      duplicate primary key it changes nothing; accepted it leaves every other row as it was. */
  lemma UpdateRowKeepsIff(db: Db, table: string, schema: Schema, changes: Row, r: string)
    requires Autocommit(db) && TableOk(db.store, table, schema) && RowKey(table, r) in db.store
    ensures var u := UpdateRow(db, table, schema, changes, r, RowAt(db.store, table, r));
            var nk := NewKey(schema, changes, r, RowAt(db.store, table, r));
            && Autocommit(u.db) && SameElsewhere(db.store, u.db.store, table)
            && SchemaKey(table) in u.db.store && u.db.store[SchemaKey(table)] == SchemaData(schema)
            && (TableOk(u.db.store, table, schema) <==> !RowClashes(db.store, table, schema, changes, r))
            && (u.error.Some? ==> u.error.value.DuplicateKey? || u.error.value.DuplicateUnique?)
            && (u.error.Some? && u.error.value.DuplicateUnique?
                <==> TouchesUnique(schema, changes) && RowClashes(db.store, table, schema, changes, r))
            && (u.error.Some? && u.error.value.DuplicateKey? <==> nk != r && RowKey(table, nk) in db.store)
            && (u.error.Some? && u.error.value.DuplicateKey? ==> u.db == db)
            && (u.error.None? ==> RowReplaced(db.store, u.db.store, table, schema, changes, r))
  {
    hide RowsOk, IndexAgrees, UniqueHolds, UpdateRow, CheckUnique, Free, Written, Replaced, NewKey, ChangedRow,
         TouchesUnique, RowReplaced, WellFormed;
    var s, before := db.store, RowAt(db.store, table, r);
    var nk, row := NewKey(schema, changes, r, before), ChangedRow(schema, changes, r, before);
    RowOutcome(db, table, schema, changes, r);
    WrittenElsewhere(s, table, schema, changes, r);
    if nk == r || RowKey(table, nk) !in s {
      ReplacedFrame(s, table, schema, changes, r);
      ReplacedSchema(s, table, schema, changes, r);
      ReplacedRows(s, table, schema, changes, r);
      ReplacedIsUniqueIff(s, Replaced(s, table, schema, changes, r), table, schema, changes, r);
      FreeUnderNewKey(s, table, schema, r, nk, row);
      if Free(s, table, schema, r, row) {
        FreeKeeps(s, table, schema, changes, r);
      }
    }
  }

  lemma ReplacedSchema(s: Store, table: string, schema: Schema, changes: Row, r: string)
    requires SchemaKey(table) in s
    ensures SchemaKey(table) in Replaced(s, table, schema, changes, r)
    ensures Replaced(s, table, schema, changes, r)[SchemaKey(table)] == s[SchemaKey(table)]
  {
    hide NewKey, ChangedRow;
  }

  /** Values no row under another key holds are held by no other row. */
  lemma FreeUnderNewKey(s: Store, table: string, schema: Schema, r: string, nk: string, row: Row)
    requires nk == r || RowKey(table, nk) !in s
    ensures Free(s, table, schema, nk, row) ==> Free(s, table, schema, r, row)
  {
  }

  // ---- The statement: changes that leave the primary key alone ----

  /** Another row holds the value a UNIQUE column is being set to. */
  ghost predicate HeldElsewhere(s: Store, table: string, schema: Schema, changes: Row, r: string) {
    exists u, q :: u in changes && u in schema.unique && q != r && RowKey(table, q) in s
                   && u in RowAt(s, table, q) && Str(RowAt(s, table, q)[u]) == Str(changes[u])
  }

  /** A row that stays under its key clashes exactly over a UNIQUE column being set. */
  lemma UnmovedClashIff(s: Store, table: string, schema: Schema, changes: Row, r: string)
    requires UniqueHolds(s, table, schema) && RowKey(table, r) in s && !SetsKey(schema, changes)
    ensures RowClashes(s, table, schema, changes, r) <==> HeldElsewhere(s, table, schema, changes, r)
    ensures HeldElsewhere(s, table, schema, changes, r) ==> TouchesUnique(schema, changes)
  {
    hide Str;
    var before := RowAt(s, table, r);
    if HeldElsewhere(s, table, schema, changes, r) {
      var u, q :| u in changes && u in schema.unique && q != r && RowKey(table, q) in s
                  && u in RowAt(s, table, q) && Str(RowAt(s, table, q)[u]) == Str(changes[u]);
      NotFree(s, table, schema, before + changes, r, u, q);
    } else {
      forall u, q | u in schema.unique && u in before + changes && q != r && RowKey(table, q) in s
                    && u in RowAt(s, table, q)
        ensures Str(RowAt(s, table, q)[u]) != Str((before + changes)[u])
      {
        if u !in changes {
          assert (before + changes)[u] == before[u];
        }
      }
    }
  }

  /** Among the rows still to be visited: two matching rows would be given one UNIQUE value, or a matching row
      would be given a value another row holds. */
  ghost predicate ListClashes(s: Store, table: string, schema: Schema, changes: Row, filter: Where,
                              keys: seq<string>, snapshot: Store)
  {
    || (TouchesUnique(schema, changes) &&
        exists i, j :: 0 <= i < j < |keys| && MatchesAt(snapshot, table, filter, keys[i])
                       && MatchesAt(snapshot, table, filter, keys[j]))
    || (exists i :: 0 <= i < |keys| && MatchesAt(snapshot, table, filter, keys[i])
                    && HeldElsewhere(s, table, schema, changes, keys[i]))
  }

  predicate MatchesAt(s: Store, table: string, filter: Where, r: string) {
    Matches(RowAt(s, table, r), filter)
  }

  lemma ClashSkips(s: Store, table: string, schema: Schema, changes: Row, filter: Where, keys: seq<string>,
                   snapshot: Store)
    requires keys != [] && !MatchesAt(snapshot, table, filter, keys[0])
    ensures ListClashes(s, table, schema, changes, filter, keys, snapshot)
            <==> ListClashes(s, table, schema, changes, filter, keys[1..], snapshot)
  {
    hide MatchesAt, HeldElsewhere, TouchesUnique;
    var tail := keys[1..];
    assert forall i :: 0 <= i < |tail| ==> tail[i] == keys[i + 1];
    if ListClashes(s, table, schema, changes, filter, keys, snapshot) {
      if i, j :| TouchesUnique(schema, changes) && 0 <= i < j < |keys| && MatchesAt(snapshot, table, filter, keys[i])
                 && MatchesAt(snapshot, table, filter, keys[j]) {
        assert MatchesAt(snapshot, table, filter, tail[i - 1]) && MatchesAt(snapshot, table, filter, tail[j - 1]);
      } else {
        var i :| 0 <= i < |keys| && MatchesAt(snapshot, table, filter, keys[i])
                 && HeldElsewhere(s, table, schema, changes, keys[i]);
        assert MatchesAt(snapshot, table, filter, tail[i - 1]);
      }
    }
    if ListClashes(s, table, schema, changes, filter, tail, snapshot) {
      if i, j :| TouchesUnique(schema, changes) && 0 <= i < j < |tail| && MatchesAt(snapshot, table, filter, tail[i])
                 && MatchesAt(snapshot, table, filter, tail[j]) {
        assert MatchesAt(snapshot, table, filter, keys[i + 1]) && MatchesAt(snapshot, table, filter, keys[j + 1]);
      } else {
        var i :| 0 <= i < |tail| && MatchesAt(snapshot, table, filter, tail[i])
                 && HeldElsewhere(s, table, schema, changes, tail[i]);
        assert MatchesAt(snapshot, table, filter, keys[i + 1]);
      }
    }
  }

  /** Once one matching row has been accepted, any further one clashes with it. */
  lemma ClashAfter(s: Store, s': Store, table: string, schema: Schema, changes: Row, filter: Where,
                   keys: seq<string>, snapshot: Store)
    requires keys != [] && Sorted(keys) && MatchesAt(snapshot, table, filter, keys[0]) && !SetsKey(schema, changes)
    requires RowKey(table, keys[0]) in s && !HeldElsewhere(s, table, schema, changes, keys[0])
    requires RowReplaced(s, s', table, schema, changes, keys[0])
    ensures ListClashes(s, table, schema, changes, filter, keys, snapshot)
            <==> ListClashes(s', table, schema, changes, filter, keys[1..], snapshot)
  {
    hide MatchesAt, Str, Matches;
    var r, tail := keys[0], keys[1..];
    assert forall i :: 0 <= i < |tail| ==> tail[i] == keys[i + 1] && tail[i] != r;
    if TouchesUnique(schema, changes) {
      var u :| u in changes && u in schema.unique;
      assert u in RowAt(s', table, r) && Str(RowAt(s', table, r)[u]) == Str(changes[u]);
      forall i | 0 <= i < |tail| ensures HeldElsewhere(s', table, schema, changes, tail[i]) {
        assert tail[i] != r && RowKey(table, r) in s';
      }
      if ListClashes(s, table, schema, changes, filter, keys, snapshot) {
        MatchInTail(s, table, schema, changes, filter, keys, snapshot);
      }
      if i :| 0 <= i < |tail| && MatchesAt(snapshot, table, filter, tail[i]) {
        assert MatchesAt(snapshot, table, filter, keys[0]) && MatchesAt(snapshot, table, filter, keys[i + 1]);
      }
    }
  }

  lemma MatchInTail(s: Store, table: string, schema: Schema, changes: Row, filter: Where, keys: seq<string>,
                    snapshot: Store)
    requires keys != [] && !HeldElsewhere(s, table, schema, changes, keys[0])
    requires ListClashes(s, table, schema, changes, filter, keys, snapshot)
    ensures exists i :: 0 <= i < |keys[1..]| && MatchesAt(snapshot, table, filter, keys[1..][i])
  {
    hide MatchesAt, HeldElsewhere, TouchesUnique;
    var tail := keys[1..];
    if i, j :| TouchesUnique(schema, changes) && 0 <= i < j < |keys| && MatchesAt(snapshot, table, filter, keys[i])
               && MatchesAt(snapshot, table, filter, keys[j]) {
      assert MatchesAt(snapshot, table, filter, tail[j - 1]);
    } else {
      var i :| 0 <= i < |keys| && MatchesAt(snapshot, table, filter, keys[i])
               && HeldElsewhere(s, table, schema, changes, keys[i]);
      assert MatchesAt(snapshot, table, filter, tail[i - 1]);
    }
  }

  lemma {:induction false} UnmovedRows(db: Db, table: string, schema: Schema, changes: Row, filter: Where,
                                       keys: seq<string>, snapshot: Store)
    requires Autocommit(db) && TableOk(db.store, table, schema) && !SetsKey(schema, changes)
    requires Unvisited(db.store, table, keys, snapshot)
    ensures var u := UpdateRows(db, table, schema, changes, filter, keys, snapshot);
            var clash := ListClashes(db.store, table, schema, changes, filter, keys, snapshot);
            && Autocommit(u.db) && SameElsewhere(db.store, u.db.store, table)
            && SchemaKey(table) in u.db.store && u.db.store[SchemaKey(table)] == SchemaData(schema)
            && (u.error.Some? ==> u.error.value.DuplicateUnique?)
            && (u.error.Some? <==> clash) && (TableOk(u.db.store, table, schema) <==> !clash)
            && (clash ==> TouchesUnique(schema, changes))
    decreases |keys|
  {
    hide TableOk, UpdateRow, HeldElsewhere, RowClashes, TouchesUnique, ListClashes, RowReplaced, Sorted, Matches;
    if keys == [] {
      NothingClashes(db.store, table, schema, changes, filter, snapshot);
      TableSchema(db.store, table, schema);
    } else {
      UnvisitedTail(db.store, table, keys, snapshot);
      var r := keys[0];
      if !Matches(RowAt(snapshot, table, r), filter) {
        ClashSkips(db.store, table, schema, changes, filter, keys, snapshot);
        UnmovedRows(db, table, schema, changes, filter, keys[1..], snapshot);
      } else {
        TableUnique(db.store, table, schema);
        UpdateRowKeepsIff(db, table, schema, changes, r);
        UnmovedClashIff(db.store, table, schema, changes, r);
        var one := UpdateRow(db, table, schema, changes, r, RowAt(snapshot, table, r));
        if one.error.None? {
          UnvisitedAfter(db.store, one.db.store, table, schema, changes, keys, snapshot);
          ClashAfter(db.store, one.db.store, table, schema, changes, filter, keys, snapshot);
          UnmovedRows(one.db, table, schema, changes, filter, keys[1..], snapshot);
        } else {
          FirstClashes(db.store, table, schema, changes, filter, keys, snapshot);
        }
      }
    }
  }

  lemma NothingClashes(s: Store, table: string, schema: Schema, changes: Row, filter: Where, snapshot: Store)
    ensures !ListClashes(s, table, schema, changes, filter, [], snapshot)
  {
  }

  lemma FirstClashes(s: Store, table: string, schema: Schema, changes: Row, filter: Where, keys: seq<string>,
                     snapshot: Store)
    requires keys != [] && Matches(RowAt(snapshot, table, keys[0]), filter)
             && HeldElsewhere(s, table, schema, changes, keys[0])
    ensures ListClashes(s, table, schema, changes, filter, keys, snapshot)
  {
    hide HeldElsewhere, Matches;
    assert MatchesAt(snapshot, table, filter, keys[0]);
  }

  lemma TableSchema(s: Store, table: string, schema: Schema)
    requires TableOk(s, table, schema)
    ensures SchemaKey(table) in s && s[SchemaKey(table)] == SchemaData(schema)
  {
  }

  lemma TableUnique(s: Store, table: string, schema: Schema)
    requires TableOk(s, table, schema)
    ensures UniqueHolds(s, table, schema)
  {
  }

  lemma UnvisitedTail(s: Store, table: string, keys: seq<string>, snapshot: Store)
    requires Unvisited(s, table, keys, snapshot) && keys != []
    ensures Unvisited(s, table, keys[1..], snapshot)
    ensures RowKey(table, keys[0]) in s && RowAt(s, table, keys[0]) == RowAt(snapshot, table, keys[0]) && Sorted(keys)
  {
  }

  lemma UnvisitedAfter(s: Store, s': Store, table: string, schema: Schema, changes: Row, keys: seq<string>,
                       snapshot: Store)
    requires Unvisited(s, table, keys, snapshot) && keys != [] && !SetsKey(schema, changes)
    requires RowReplaced(s, s', table, schema, changes, keys[0])
    ensures Unvisited(s', table, keys[1..], snapshot)
  {
  }

  // ---- The statement: changes that set the primary key ----

  /** The first key whose row matches. */
  function FirstMatching(s: Store, table: string, filter: Where, keys: seq<string>): Option<string> {
    if keys == [] then None
    else if MatchesAt(s, table, filter, keys[0]) then Some(keys[0])
    else FirstMatching(s, table, filter, keys[1..])
  }

  /** Once the new key is taken every further matching row is refused, which changes nothing. */
  lemma {:induction false} RestRefused(db: Db, table: string, schema: Schema, changes: Row, filter: Where,
                                       keys: seq<string>, snapshot: Store)
    requires Autocommit(db) && SetsKey(schema, changes)
    requires var nk := Str(changes[schema.primaryKey.value]); RowKey(table, nk) in db.store && nk !in keys
    ensures var u := UpdateRows(db, table, schema, changes, filter, keys, snapshot);
            u.db == db && (u.error.Some? ==> u.error.value.DuplicateKey?)
    decreases |keys|
  {
    hide Str, Matches;
    if keys != [] {
      RestRefused(db, table, schema, changes, filter, keys[1..], snapshot);
    }
  }

  /** Setting the primary key, the first matching row decides. */
  lemma {:induction false} MovedRows(db: Db, table: string, schema: Schema, changes: Row, filter: Where,
                                     keys: seq<string>, snapshot: Store)
    requires Autocommit(db) && TableOk(db.store, table, schema) && SetsKey(schema, changes)
    requires Unvisited(db.store, table, keys, snapshot)
    ensures var u := UpdateRows(db, table, schema, changes, filter, keys, snapshot);
            var first := FirstMatching(snapshot, table, filter, keys);
            var clash := first.Some? && RowClashes(db.store, table, schema, changes, first.value);
            && Autocommit(u.db) && SameElsewhere(db.store, u.db.store, table)
            && SchemaKey(table) in u.db.store && u.db.store[SchemaKey(table)] == SchemaData(schema)
            && (u.error.Some? && u.error.value.DuplicateUnique? <==> clash && TouchesUnique(schema, changes))
            && (TableOk(u.db.store, table, schema) <==> !clash)
    decreases |keys|
  {
    hide TableOk, UpdateRow, RowClashes, TouchesUnique, RowReplaced, Sorted, Matches, Str, SameElsewhere;
    if keys == [] {
      TableSchema(db.store, table, schema);
      Same(db.store, table);
    } else {
      UnvisitedTail(db.store, table, keys, snapshot);
      var r := keys[0];
      if !Matches(RowAt(snapshot, table, r), filter) {
        MovedRows(db, table, schema, changes, filter, keys[1..], snapshot);
      } else {
        UpdateRowKeepsIff(db, table, schema, changes, r);
        var one := UpdateRow(db, table, schema, changes, r, RowAt(snapshot, table, r));
        if one.error.None? {
          NewKeyTaken(db.store, one.db.store, table, schema, changes, keys, snapshot);
          RestRefused(one.db, table, schema, changes, filter, keys[1..], snapshot);
        }
      }
    }
  }

  lemma Same(s: Store, table: string)
    ensures SameElsewhere(s, s, table)
  {
  }

  lemma NewKeyTaken(s: Store, s': Store, table: string, schema: Schema, changes: Row, keys: seq<string>,
                    snapshot: Store)
    requires Unvisited(s, table, keys, snapshot) && keys != [] && SetsKey(schema, changes)
    requires RowReplaced(s, s', table, schema, changes, keys[0])
    requires var nk := NewKey(schema, changes, keys[0], RowAt(s, table, keys[0]));
             nk == keys[0] || RowKey(table, nk) !in s
    ensures var nk := Str(changes[schema.primaryKey.value]); RowKey(table, nk) in s' && nk !in keys[1..]
  {
    hide Str;
  }

  // ---- The statement ----

  /** The first matching row in key order. */
  ghost function FirstMatch(s: Store, table: string, filter: Where): Option<string> {
    FirstMatching(s, table, filter, Listing(RowKeys(s, table)))
  }

  ghost predicate Matching(s: Store, table: string, filter: Where, r: string) {
    RowKey(table, r) in s && MatchesAt(s, table, filter, r)
  }

  /** The UPDATE would break the table, as can be seen beforehand.  Setting the primary key, its first matching
      row clashes.  Otherwise a UNIQUE column is set while two rows match, or to a value that a row other than
      a matching one holds. */
  ghost predicate UpdateClashes(s: Store, table: string, schema: Schema, changes: Row, filter: Where) {
    if SetsKey(schema, changes) then
      FirstMatch(s, table, filter).Some? && RowClashes(s, table, schema, changes, FirstMatch(s, table, filter).value)
    else
      || (TouchesUnique(schema, changes)
          && exists r, q :: r != q && Matching(s, table, filter, r) && Matching(s, table, filter, q))
      || (exists r :: Matching(s, table, filter, r) && HeldElsewhere(s, table, schema, changes, r))
  }

  lemma ListClashIff(s: Store, table: string, schema: Schema, changes: Row, filter: Where, keys: seq<string>)
    requires Lists(keys, RowKeys(s, table)) && !SetsKey(schema, changes)
    ensures ListClashes(s, table, schema, changes, filter, keys, s)
            <==> UpdateClashes(s, table, schema, changes, filter)
  {
    hide MatchesAt, HeldElsewhere, TouchesUnique, Leq;
    assert forall r :: r in keys <==> RowKey(table, r) in s;
    if ListClashes(s, table, schema, changes, filter, keys, s) {
      if i, j :| TouchesUnique(schema, changes) && 0 <= i < j < |keys| && MatchesAt(s, table, filter, keys[i])
                 && MatchesAt(s, table, filter, keys[j]) {
        assert keys[i] in keys && keys[j] in keys && keys[i] != keys[j];
        assert Matching(s, table, filter, keys[i]) && Matching(s, table, filter, keys[j]);
      } else {
        var i :| 0 <= i < |keys| && MatchesAt(s, table, filter, keys[i])
                 && HeldElsewhere(s, table, schema, changes, keys[i]);
        assert keys[i] in keys;
        assert Matching(s, table, filter, keys[i]);
      }
    }
    if UpdateClashes(s, table, schema, changes, filter) {
      if r, q :| TouchesUnique(schema, changes) && r != q && Matching(s, table, filter, r)
                 && Matching(s, table, filter, q) {
        var i :| 0 <= i < |keys| && keys[i] == r;
        var j :| 0 <= j < |keys| && keys[j] == q;
        if i < j {
          assert MatchesAt(s, table, filter, keys[i]) && MatchesAt(s, table, filter, keys[j]);
        } else {
          assert j < i && MatchesAt(s, table, filter, keys[j]) && MatchesAt(s, table, filter, keys[i]);
        }
      } else {
        var r :| Matching(s, table, filter, r) && HeldElsewhere(s, table, schema, changes, r);
        var i :| 0 <= i < |keys| && keys[i] == r;
      }
    }
  }

  /** An UPDATE keeps the table in order if and only if it does not clash, and ends in the UNIQUE error exactly
      when it clashes and sets a UNIQUE column. */
  lemma UpdateKeepsIffNoClash(db: Db, table: string, changes: Row, filter: Where, keys: seq<string>)
    requires Autocommit(db) && TableFine(db.store, table) && Lists(keys, RowKeys(db.store, table))
    ensures var (db', response) := Update(db, table, changes, filter, keys);
            var schema := SchemaAt(db.store, table);
            && Autocommit(db') && SameElsewhere(db.store, db'.store, table)
            && (TableFine(db'.store, table) <==> !UpdateClashes(db.store, table, schema, changes, filter))
            && (response.DuplicateUnique? <==>
                UpdateClashes(db.store, table, schema, changes, filter) && TouchesUnique(schema, changes))
  {
    hide TableOk, UpdateRows, TouchesUnique, RowClashes, ListClashes, FirstMatching, SameElsewhere, Sorted;
    var schema := SchemaAt(db.store, table);
    forall i | 0 <= i < |keys| ensures RowKey(table, keys[i]) in db.store {
      assert keys[i] in keys;
    }
    if SetsKey(schema, changes) {
      MovedRows(db, table, schema, changes, filter, keys, db.store);
      ListsUnique(keys, Listing(RowKeys(db.store, table)), RowKeys(db.store, table));
    } else {
      ListClashIff(db.store, table, schema, changes, filter, keys);
      UnmovedRows(db, table, schema, changes, filter, keys, db.store);
    }
  }
}
