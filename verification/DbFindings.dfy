/** Statements outside the conditions of DbRuns.AgreementOverRuns: exactly when they keep a table in order,
    and tables, built by the statements themselves, where they do not. */
module DbFindings {
  import opened Wrappers
  import opened DbTypes
  import opened KeyOrder
  import opened DbModel
  import opened DbTransactions
  import opened DbIndexes
  import opened DbUpdates
  import opened DbSelect

  // ---- INSERT without the primary key ----

  /** An INSERT that leaves out the primary key is accepted exactly when its UNIQUE values are free.  It then
      writes to the id counter's key without looking, and the index stays in agreement if and only if every
      entry of a row already there is also an entry of the new row. */
  lemma InsertWithoutKeyAgreesIff(db: Db, table: string, columns: seq<string>, values: seq<Value>)
    requires Autocommit(db) && TableFine(db.store, table)
    requires !SuppliesKey(SchemaAt(db.store, table), Data(columns, values))
    ensures var schema, r := SchemaAt(db.store, table), Decimal(SchemaAt(db.store, table).nextId);
            var row := NewRow(Data(columns, values), r);
            var (db', response) := DbModel.Insert(db, table, columns, values);
            var bumped := db.store[SchemaKey(table) := SchemaData(schema.(nextId := schema.nextId + 1))];
            && (response == Inserted <==> Free(db.store, table, schema, r, row))
            && (response == Inserted ==> db'.store == WithRow(bumped, table, schema, r, row))
            && (IndexAgrees(db'.store, table, schema) <==>
                (Free(db.store, table, schema, r, row) ==>
                   EntryKeys(table, RowAt(db.store, table, r), r, schema.indexes)
                   <= EntryKeys(table, row, r, schema.indexes)))
  {
    hide RowsOk, UniqueHolds, CheckUnique, Free, IndexAgrees, AddEntries, WithRow, EntryKeys;
    var s, schema := db.store, SchemaAt(db.store, table);
    var r, row := Decimal(schema.nextId), NewRow(Data(columns, values), Decimal(schema.nextId));
    var db1 := Put(db, SchemaKey(table), SchemaData(schema.(nextId := schema.nextId + 1)));
    CheckIffFree(db1, s, table, schema, row, r);
    CheckUniqueMeans(db1, table, row, r, schema.unique);
    AddEntriesStore(Put(db1, RowKey(table, r), RowData(row)), table, row, r, schema.indexes);
    OverwriteAgreesIff(s, db1.store, table, schema, r, row);
    SchemaOutsideIndex(s, db1.store, table, schema);
    assert WithRow(db1.store, table, schema, r, row)
        == db1.store[RowKey(table, r) := RowData(row)] + Marked(EntryKeys(table, row, r, schema.indexes)) by {
      WithRowIs(db1.store, table, schema, r, row);
    }
  }

  lemma WithRowIs(s: Store, table: string, schema: Schema, r: string, row: Row)
    ensures WithRow(s, table, schema, r, row)
            == s[RowKey(table, r) := RowData(row)] + Marked(EntryKeys(table, row, r, schema.indexes))
  {
  }

  lemma SchemaOutsideIndex(s: Store, s1: Store, table: string, schema: Schema)
    requires IndexAgrees(s, table, schema)
    requires forall k: Key :: !k.SchemaKey? ==> (k in s <==> k in s1) && (k in s ==> s[k] == s1[k])
    ensures IndexAgrees(s1, table, schema)
  {
    forall col, value, q ensures IdxKey(table, col, value, q) in s1 <==> Holds(s1, table, schema, col, value, q) {
      assert IdxKey(table, col, value, q) in s <==> Holds(s, table, schema, col, value, q);
    }
  }

  lemma OverwriteAgreesIff(s: Store, s1: Store, table: string, schema: Schema, r: string, row: Row)
    requires IndexAgrees(s, table, schema)
    requires forall k: Key :: !k.SchemaKey? ==> (k in s <==> k in s1) && (k in s ==> s[k] == s1[k])
    ensures IndexAgrees(WithRow(s1, table, schema, r, row), table, schema) <==>
            EntryKeys(table, RowAt(s, table, r), r, schema.indexes) <= EntryKeys(table, row, r, schema.indexes)
  {
    var s' := WithRow(s1, table, schema, r, row);
    var was, now := EntryKeys(table, RowAt(s, table, r), r, schema.indexes), EntryKeys(table, row, r, schema.indexes);
    forall col, value ensures IdxKey(table, col, value, r) in s <==> IdxKey(table, col, value, r) in was {
      assert IdxKey(table, col, value, r) in s <==> Holds(s, table, schema, col, value, r);
    }
    assert RowAt(s', table, r) == row;
    forall col, value ensures IdxKey(table, col, value, r) in now <==> Holds(s', table, schema, col, value, r) {}
    if was <= now {
      forall col, value, q ensures IdxKey(table, col, value, q) in s' <==> Holds(s', table, schema, col, value, q) {
        if q != r {
          assert RowAt(s', table, q) == RowAt(s, table, q);
          assert IdxKey(table, col, value, q) in s <==> Holds(s, table, schema, col, value, q);
        }
      }
    } else {
      var k :| k in was && k !in now;
      assert IdxKey(table, k.col, k.value, r) == k;
      assert k in s' && !Holds(s', table, schema, k.col, k.value, r);
    }
  }

  // ---- UPDATE that moves rows ----

  /** No other row has the text as its `id`. */
  ghost predicate IdIsFree(s: Store, table: string, r: string, id: string) {
    forall q :: q != r && RowKey(table, q) in s && "id" in RowAt(s, table, q) ==> Str(RowAt(s, table, q)["id"]) != id
  }

  /** The UPDATE moves its first matching row to a free key, and `id`, which the move rewrites, is UNIQUE. */
  ghost predicate MovesUniqueId(s: Store, table: string, schema: Schema, changes: Row, filter: Where) {
    && SetsKey(schema, changes) && "id" in schema.unique && FirstMatch(s, table, filter).Some?
    && Str(changes[schema.primaryKey.value]) != FirstMatch(s, table, filter).value
    && RowKey(table, Str(changes[schema.primaryKey.value])) !in s
  }

  /** An UPDATE that sets no UNIQUE column makes no UNIQUE check; it keeps the table in order if and only if it
      does not move a row to a key that another row has as UNIQUE `id`. */
  lemma UncheckedUpdateKeepsIff(db: Db, table: string, changes: Row, filter: Where, keys: seq<string>)
    requires Autocommit(db) && TableFine(db.store, table) && Lists(keys, RowKeys(db.store, table))
    requires !TouchesUnique(SchemaAt(db.store, table), changes)
    ensures var (db', response) := Update(db, table, changes, filter, keys);
            var schema := SchemaAt(db.store, table);
            && !response.DuplicateUnique?
            && (TableFine(db'.store, table) <==>
                (MovesUniqueId(db.store, table, schema, changes, filter) ==>
                   IdIsFree(db.store, table, FirstMatch(db.store, table, filter).value,
                            Str(changes[schema.primaryKey.value]))))
  {
    hide RowsOk, IndexAgrees, Update, FirstMatch, TouchesUnique, RowClashes, Str;
    var s, schema := db.store, SchemaAt(db.store, table);
    UpdateKeepsIffNoClash(db, table, changes, filter, keys);
    if SetsKey(schema, changes) {
      if FirstMatch(s, table, filter).Some? {
        FirstMatchIsRow(s, table, filter);
        UncheckedClashIff(s, table, schema, changes, FirstMatch(s, table, filter).value);
      }
    } else {
      forall r | Matching(s, table, filter, r) ensures !HeldElsewhere(s, table, schema, changes, r) {
        UnmovedClashIff(s, table, schema, changes, r);
      }
    }
  }

  lemma FirstMatchIsRow(s: Store, table: string, filter: Where)
    requires FirstMatch(s, table, filter).Some?
    ensures Matching(s, table, filter, FirstMatch(s, table, filter).value)
  {
    hide MatchesAt, Sorted;
    FirstMatchingIn(s, table, filter, Listing(RowKeys(s, table)));
  }

  lemma {:induction false} FirstMatchingIn(s: Store, table: string, filter: Where, keys: seq<string>)
    requires FirstMatching(s, table, filter, keys).Some?
    ensures FirstMatching(s, table, filter, keys).value in keys
    ensures MatchesAt(s, table, filter, FirstMatching(s, table, filter, keys).value)
    decreases |keys|
  {
    hide MatchesAt;
    if !MatchesAt(s, table, filter, keys[0]) {
      FirstMatchingIn(s, table, filter, keys[1..]);
    }
  }

  lemma UncheckedClashIff(s: Store, table: string, schema: Schema, changes: Row, r: string)
    requires UniqueHolds(s, table, schema) && RowKey(table, r) in s
    requires SetsKey(schema, changes) && !TouchesUnique(schema, changes)
    ensures var nk := Str(changes[schema.primaryKey.value]);
            RowClashes(s, table, schema, changes, r) <==>
            "id" in schema.unique && nk != r && RowKey(table, nk) !in s && !IdIsFree(s, table, r, nk)
  {
    hide Str;
    var before := RowAt(s, table, r);
    var nk, row := NewKey(schema, changes, r, before), ChangedRow(schema, changes, r, before);
    assert forall u :: u in schema.unique && u in row && !(u == "id" && nk != r) ==> u in before && row[u] == before[u];
    if nk != r {
      assert row["id"] == TextValue(nk);
      TextIsItself(nk);
    }
  }

  lemma TextIsItself(text: string)
    ensures Str(TextValue(text)) == text
  {
  }

  /** A moved row whose new UNIQUE values no other row holds is stopped by the UNIQUE check if and only if it
      keeps one of its own: its old entries are still in the index. */
  lemma OwnEntriesClashIff(s: Store, table: string, schema: Schema, changes: Row, r: string)
    requires RowKey(table, r) in s && TouchesUnique(schema, changes)
    requires var before := RowAt(s, table, r);
             var nk := NewKey(schema, changes, r, before);
             && nk != r && RowKey(table, nk) !in s
             && Free(s, table, schema, r, ChangedRow(schema, changes, r, before))
    ensures var before := RowAt(s, table, r);
            var row := ChangedRow(schema, changes, r, before);
            RowClashes(s, table, schema, changes, r) <==>
            exists u :: u in schema.unique && u in row && u in before && Str(before[u]) == Str(row[u])
  {
    hide NewKey, ChangedRow, Str;
    var before := RowAt(s, table, r);
    var nk, row := NewKey(schema, changes, r, before), ChangedRow(schema, changes, r, before);
    if u :| u in schema.unique && u in row && u in before && Str(before[u]) == Str(row[u]) {
      NotFree(s, table, schema, row, nk, u, r);
    }
  }

  // ---- Tables built by INSERT ----

  function FreshTable(schema: Schema): Db {
    Db(map[SchemaKey("t") := SchemaData(schema)], false, map[], [], [])
  }

  lemma FreshIsFine(schema: Schema)
    requires WellFormed(schema)
    ensures Autocommit(FreshTable(schema)) && TableOk(FreshTable(schema).store, "t", schema)
    ensures forall r :: RowKey("t", r) !in FreshTable(schema).store
  {
    assert forall col, value, q :: IdxKey("t", col, value, q) !in FreshTable(schema).store;
  }

  /** An INSERT that supplies a new primary key. */
  lemma InsertKeyed(db: Db, schema: Schema, columns: seq<string>, values: seq<Value>, r: string, row: Row)
    requires Autocommit(db) && TableOk(db.store, "t", schema) && schema.primaryKey.Some?
    requires schema.primaryKey.value in Data(columns, values)
             && Str(Data(columns, values)[schema.primaryKey.value]) == r
    requires RowKey("t", r) !in db.store && row == NewRow(Data(columns, values), r)
             && Free(db.store, "t", schema, r, row)
    ensures var (db', response) := DbModel.Insert(db, "t", columns, values);
            && response == Inserted && Autocommit(db') && TableOk(db'.store, "t", schema)
            && db'.store == WithRow(db.store, "t", schema, r, row)
  {
    hide RowsOk, IndexAgrees, UniqueHolds, Free, CheckUnique, Str, WithRow;
    CheckIffFree(db, db.store, "t", schema, row, r);
    InsertRowKeeps(db, "t", schema, Data(columns, values), r);
  }

  /** An INSERT into a table without a primary key. */
  lemma InsertNumbered(db: Db, schema: Schema, columns: seq<string>, values: seq<Value>, r: string, row: Row)
    requires Autocommit(db) && TableOk(db.store, "t", schema) && schema.primaryKey.None? && r == Decimal(schema.nextId)
    requires row == NewRow(Data(columns, values), r) && Free(db.store, "t", schema, r, row)
    ensures var (db', response) := DbModel.Insert(db, "t", columns, values);
            var bumped := schema.(nextId := schema.nextId + 1);
            && response == Inserted && Autocommit(db') && TableOk(db'.store, "t", bumped)
            && db'.store == WithRow(db.store[SchemaKey("t") := SchemaData(bumped)], "t", bumped, r, row)
  {
    hide RowsOk, IndexAgrees, UniqueHolds, CheckUnique, Str, WithRow, NewRow, Decimal, InsertRow;
    var bumped := schema.(nextId := schema.nextId + 1);
    var db1 := Put(db, SchemaKey("t"), SchemaData(bumped));
    NextIdIsFresh(db.store, "t", schema);
    BumpKeeps(db.store, "t", schema);
    IssuedNow(schema, r);
    CheckIffFree(db1, db1.store, "t", bumped, row, r);
    InsertRowKeeps(db1, "t", bumped, Data(columns, values), r);
    InsertedWhenFree(db1, "t", bumped, Data(columns, values), r);
    SchemaIrrelevant(db1, "t", schema, bumped, Data(columns, values), r);
  }

  lemma IssuedNow(schema: Schema, r: string)
    requires r == Decimal(schema.nextId)
    ensures Issued(r, schema.nextId + 1)
  {
    assert schema.nextId < schema.nextId + 1;
  }

  lemma InsertedWhenFree(db: Db, table: string, schema: Schema, data: Row, r: string)
    requires CheckUnique(db, table, NewRow(data, r), r, schema.unique).None?
    ensures InsertRow(db, table, schema, data, r).1 == Inserted
  {
  }

  lemma WithRowRows(s: Store, schema: Schema, r: string, row: Row)
    ensures var s' := WithRow(s, "t", schema, r, row);
            && (forall q :: RowKey("t", q) in s' <==> q == r || RowKey("t", q) in s)
            && RowAt(s', "t", r) == row && forall q :: q != r ==> RowAt(s', "t", q) == RowAt(s, "t", q)
  {
  }

  lemma WithRowEntry(s: Store, schema: Schema, r: string, row: Row, c: string)
    requires c in schema.indexes && c in row
    ensures IdxKey("t", c, Str(row[c]), r) in WithRow(s, "t", schema, r, row)
    ensures forall k :: k in s ==> k in WithRow(s, "t", schema, r, row)
  {
  }

  lemma OneColumn(c: string, v: Value)
    ensures Data([c], [v]) == map[c := v]
  {
    assert [c][1..] == [] && [v][1..] == [];
  }

  lemma TwoColumns(c: string, d: string, v: Value, w: Value)
    requires c != d
    ensures Data([c, d], [v, w]) == map[c := v, d := w]
  {
    assert [c, d][1..] == [d] && [v, w][1..] == [w];
    OneColumn(d, w);
  }

  lemma Digits12()
    ensures Decimal(1) == "1" && Decimal(2) == "2"
  {
  }

  // ---- INSERT without the primary key overwrites a row ----

  const Keyed := Schema(["k", "v"], 1, Some("k"), ["v"], [])

  /** A row under key "1" is overwritten by the first INSERT without a key; its entry stays. */
  lemma OverwriteBreaksIndex()
    ensures var db := DbModel.Insert(FreshTable(Keyed), "t", ["k", "v"], [TextValue("1"), TextValue("x")]).0;
            var (db', response) := DbModel.Insert(db, "t", ["v"], [TextValue("y")]);
            && Autocommit(db) && TableOk(db.store, "t", Keyed)
            && response == Inserted && !IndexAgrees(db'.store, "t", Keyed)
            && IdxKey("t", "v", "x", "1") in db'.store && IdxKey("t", "v", "y", "1") in db'.store
            && RowAt(db'.store, "t", "1") == map["id" := TextValue("1"), "v" := TextValue("y")]
  {
    hide RowsOk, IndexAgrees, UniqueHolds, DbModel.Insert, WithRow, Decimal;
    FreshIsFine(Keyed);
    TwoColumns("k", "v", TextValue("1"), TextValue("x"));
    var row := NewRow(map["k" := TextValue("1"), "v" := TextValue("x")], "1");
    InsertKeyed(FreshTable(Keyed), Keyed, ["k", "v"], [TextValue("1"), TextValue("x")], "1", row);
    WithRowRows(FreshTable(Keyed).store, Keyed, "1", row);
    var db := DbModel.Insert(FreshTable(Keyed), "t", ["k", "v"], [TextValue("1"), TextValue("x")]).0;
    Digits12();
    OneColumn("v", TextValue("y"));
    InsertWithoutKeyAgreesIff(db, "t", ["v"], [TextValue("y")]);
    assert "v" in Keyed.indexes;
    assert IdxKey("t", "v", "x", "1") in EntryKeys("t", row, "1", Keyed.indexes);
    WithRowEntry(FreshTable(Keyed).store, Keyed, "1", row, "v");
    var bumped := db.store[SchemaKey("t") := SchemaData(Keyed.(nextId := 2))];
    var now := NewRow(map["v" := TextValue("y")], "1");
    assert now == map["id" := TextValue("1"), "v" := TextValue("y")];
    WithRowRows(bumped, Keyed, "1", now);
    WithRowEntry(bumped, Keyed, "1", now, "v");
  }

  // ---- UPDATE stopped by UNIQUE ----

  const Named := Schema(["v"], 1, None, ["v"], ["v"])

  /** Two rows with v = a and v = b. */
  function TwoNames(): Db {
    DbModel.Insert(DbModel.Insert(FreshTable(Named), "t", ["v"], [TextValue("a")]).0, "t", ["v"], [TextValue("b")]).0
  }

  lemma TwoNamesAre()
    ensures Autocommit(TwoNames()) && TableOk(TwoNames().store, "t", Named.(nextId := 3))
    ensures forall q :: RowKey("t", q) in TwoNames().store <==> q == "1" || q == "2"
    ensures "v" in RowAt(TwoNames().store, "t", "1") && RowAt(TwoNames().store, "t", "1")["v"] == TextValue("a")
    ensures "v" in RowAt(TwoNames().store, "t", "2") && RowAt(TwoNames().store, "t", "2")["v"] == TextValue("b")
  {
    hide TableOk, DbModel.Insert, WithRow, Decimal;
    FreshIsFine(Named);
    Digits12();
    OneColumn("v", TextValue("a"));
    OneColumn("v", TextValue("b"));
    var first, second := NewRow(map["v" := TextValue("a")], "1"), NewRow(map["v" := TextValue("b")], "2");
    InsertNumbered(FreshTable(Named), Named, ["v"], [TextValue("a")], "1", first);
    var one := DbModel.Insert(FreshTable(Named), "t", ["v"], [TextValue("a")]).0;
    var bumped := Named.(nextId := 2);
    var s0 := FreshTable(Named).store[SchemaKey("t") := SchemaData(bumped)];
    WithRowRows(s0, bumped, "1", first);
    InsertNumbered(one, bumped, ["v"], [TextValue("b")], "2", second);
    WithRowRows(one.store[SchemaKey("t") := SchemaData(Named.(nextId := 3))], Named.(nextId := 3), "2", second);
    SameRows(one.store, Named.(nextId := 3));
  }

  lemma SameRows(s: Store, schema: Schema)
    ensures var s' := s[SchemaKey("t") := SchemaData(schema)];
            forall q :: (RowKey("t", q) in s' <==> RowKey("t", q) in s) && RowAt(s', "t", q) == RowAt(s, "t", q)
  {
  }

  /** Setting v = a where v = b ends in the UNIQUE error with v = a in both rows and the entry for b still there. */
  lemma UniqueErrorBreaksTable(keys: seq<string>)
    requires Lists(keys, RowKeys(TwoNames().store, "t"))
    ensures var (db', response) := Update(TwoNames(), "t", map["v" := TextValue("a")], [("v", TextValue("b"))], keys);
            var schema := Named.(nextId := 3);
            && Autocommit(TwoNames()) && TableOk(TwoNames().store, "t", schema)
            && response == DuplicateUnique("v", "a")
            && "v" in RowAt(db'.store, "t", "1") && RowAt(db'.store, "t", "1")["v"] == TextValue("a")
            && "v" in RowAt(db'.store, "t", "2") && RowAt(db'.store, "t", "2")["v"] == TextValue("a")
            && IdxKey("t", "v", "b", "2") in db'.store
            && !UniqueHolds(db'.store, "t", schema) && !IndexAgrees(db'.store, "t", schema)
  {
    hide TwoNames, Update, UpdateRow, RowsOk, IndexAgrees, UniqueHolds, Lists;
    TwoNamesAre();
    var db, schema := TwoNames(), Named.(nextId := 3);
    var s, changes, filter := db.store, map["v" := TextValue("a")], [("v", TextValue("b"))];
    assert filter[0] == ("v", TextValue("b"));
    assert MatchesAt(s, "t", filter, "2") && !MatchesAt(s, "t", filter, "1");
    UpdateOfOne(db, "t", changes, filter, keys, "2");
    assert "v" in schema.unique && TouchesUnique(schema, changes);
    assert HeldElsewhere(s, "t", schema, changes, "2") by {
      assert "v" in changes && "1" != "2" && RowKey("t", "1") in s && Str(RowAt(s, "t", "1")["v"]) == Str(changes["v"]);
    }
    assert RowClashes(s, "t", schema, changes, "2") by { UnmovedClashIff(s, "t", schema, changes, "2"); }
    RowOutcome(db, "t", schema, changes, "2");
    UpdateRowUnfolds(db, "t", schema, changes, "2");
    var s' := Written(s, "t", schema, changes, "2");
    assert RowAt(s', "t", "2") == RowAt(s, "t", "2") + changes && RowAt(s', "t", "1") == RowAt(s, "t", "1");
    SharedValue(s', "t", schema, "v", "1", "2");
    EntryOf(s, "t", schema, "v", "2");
  }

  lemma SharedValue(s: Store, table: string, schema: Schema, u: string, a: string, b: string)
    requires u in schema.unique && a != b && RowKey(table, a) in s && RowKey(table, b) in s
    requires u in RowAt(s, table, a) && u in RowAt(s, table, b)
    requires Str(RowAt(s, table, a)[u]) == Str(RowAt(s, table, b)[u])
    ensures !UniqueHolds(s, table, schema)
  {
  }

  lemma EntryOf(s: Store, table: string, schema: Schema, col: string, r: string)
    requires IndexAgrees(s, table, schema) && RowKey(table, r) in s && col in schema.indexes
             && col in RowAt(s, table, r)
    ensures IdxKey(table, col, Str(RowAt(s, table, r)[col]), r) in s
  {
    assert Holds(s, table, schema, col, Str(RowAt(s, table, r)[col]), r);
  }

  // ---- UPDATE of a single matching row ----

  lemma {:induction false} NoMatchUpdates(db: Db, table: string, schema: Schema, changes: Row, filter: Where,
                                          keys: seq<string>, snapshot: Store)
    requires forall q :: q in keys ==> !MatchesAt(snapshot, table, filter, q)
    ensures UpdateRows(db, table, schema, changes, filter, keys, snapshot) == UpdateState(db, [], None)
    decreases |keys|
  {
    hide UpdateRow, Matches;
    if keys != [] {
      assert keys[0] in keys && !MatchesAt(snapshot, table, filter, keys[0]);
      NoMatchUpdates(db, table, schema, changes, filter, keys[1..], snapshot);
    }
  }

  lemma {:induction false} OneMatchUpdates(db: Db, table: string, schema: Schema, changes: Row, filter: Where,
                                           keys: seq<string>, snapshot: Store, r: string)
    requires r in keys && Sorted(keys) && forall q :: q in keys ==> (MatchesAt(snapshot, table, filter, q) <==> q == r)
    ensures UpdateRows(db, table, schema, changes, filter, keys, snapshot)
            == UpdateRow(db, table, schema, changes, r, RowAt(snapshot, table, r))
    decreases |keys|
  {
    hide UpdateRow, Matches;
    assert keys[0] in keys && forall q :: q in keys[1..] ==> q in keys;
    if keys[0] == r {
      NoMatchUpdates(UpdateRow(db, table, schema, changes, r, RowAt(snapshot, table, r)).db, table, schema, changes,
                     filter, keys[1..], snapshot);
    } else {
      OneMatchUpdates(db, table, schema, changes, filter, keys[1..], snapshot, r);
    }
  }

  /** An UPDATE whose filter meets one row answers as that row's step does. */
  lemma UpdateOfOne(db: Db, table: string, changes: Row, filter: Where, keys: seq<string>, r: string)
    requires Autocommit(db) && TableFine(db.store, table) && Lists(keys, RowKeys(db.store, table))
    requires forall q :: RowKey(table, q) in db.store ==> (MatchesAt(db.store, table, filter, q) <==> q == r)
    requires RowKey(table, r) in db.store
    ensures var (db', response) := Update(db, table, changes, filter, keys);
            var u := UpdateRow(db, table, SchemaAt(db.store, table), changes, r, RowAt(db.store, table, r));
            && db'.store == u.db.store
            && response == if u.error.Some? then u.error.value else Updated(|u.rows|)
  {
    hide UpdateRow, MatchesAt, IndexAgrees, UniqueHolds;
    assert r in RowKeys(db.store, table);
    OneMatchUpdates(db, table, SchemaAt(db.store, table), changes, filter, keys, db.store, r);
    UpdateRowAutocommit(db, table, SchemaAt(db.store, table), changes, r);
  }

  lemma UpdateRowAutocommit(db: Db, table: string, schema: Schema, changes: Row, r: string)
    requires Autocommit(db) && RowKey(table, r) in db.store
    ensures Autocommit(UpdateRow(db, table, schema, changes, r, RowAt(db.store, table, r)).db)
  {
    hide UpdateRow, CheckUnique;
    UpdateRowUnfolds(db, table, schema, changes, r);
  }

  // ---- UPDATE that moves a row ----

  const KeyedById := Schema(["id", "k"], 1, Some("k"), ["id"], ["id"])

  function TwoIds(): Db {
    DbModel.Insert(DbModel.Insert(FreshTable(KeyedById), "t", ["id", "k"], [TextValue("x"), TextValue("1")]).0,
                   "t", ["id", "k"], [TextValue("2"), TextValue("2")]).0
  }

  lemma TwoIdsAre()
    ensures Autocommit(TwoIds()) && TableOk(TwoIds().store, "t", KeyedById)
    ensures forall q :: RowKey("t", q) in TwoIds().store <==> q == "1" || q == "2"
    ensures RowAt(TwoIds().store, "t", "1") == map["id" := TextValue("x"), "k" := TextValue("1")]
    ensures RowAt(TwoIds().store, "t", "2") == map["id" := TextValue("2"), "k" := TextValue("2")]
  {
    hide TableOk, DbModel.Insert, WithRow;
    FreshIsFine(KeyedById);
    var first: Row := map["id" := TextValue("x"), "k" := TextValue("1")];
    var second: Row := map["id" := TextValue("2"), "k" := TextValue("2")];
    TwoColumns("id", "k", TextValue("x"), TextValue("1"));
    TwoColumns("id", "k", TextValue("2"), TextValue("2"));
    assert NewRow(first, "1") == first && NewRow(second, "2") == second;
    InsertKeyed(FreshTable(KeyedById), KeyedById, ["id", "k"], [TextValue("x"), TextValue("1")], "1", first);
    var one := DbModel.Insert(FreshTable(KeyedById), "t", ["id", "k"], [TextValue("x"), TextValue("1")]).0;
    WithRowRows(FreshTable(KeyedById).store, KeyedById, "1", first);
    InsertKeyed(one, KeyedById, ["id", "k"], [TextValue("2"), TextValue("2")], "2", second);
    WithRowRows(one.store, KeyedById, "2", second);
  }

  lemma {:induction false} OnlyMatch(s: Store, table: string, filter: Where, keys: seq<string>, r: string)
    requires r in keys && forall q :: q in keys ==> (MatchesAt(s, table, filter, q) <==> q == r)
    ensures FirstMatching(s, table, filter, keys) == Some(r)
    decreases |keys|
  {
    hide MatchesAt;
    assert keys[0] in keys;
    if keys[0] != r {
      assert forall q :: q in keys[1..] ==> q in keys;
      OnlyMatch(s, table, filter, keys[1..], r);
    }
  }

  /** Setting k = x where k = 2 answers that one row was updated, and gives it the `id` another row has. */
  lemma MovedIdBreaksUnique(keys: seq<string>)
    requires Lists(keys, RowKeys(TwoIds().store, "t"))
    ensures var (db', response) := Update(TwoIds(), "t", map["k" := TextValue("x")], [("k", TextValue("2"))], keys);
            && Autocommit(TwoIds()) && TableOk(TwoIds().store, "t", KeyedById)
            && response == Updated(1)
            && RowAt(db'.store, "t", "1") == map["id" := TextValue("x"), "k" := TextValue("1")]
            && RowAt(db'.store, "t", "x") == map["id" := TextValue("x"), "k" := TextValue("x")]
            && !UniqueHolds(db'.store, "t", KeyedById)
  {
    hide TwoIds, Update, UpdateRow, CheckUnique, RowsOk, IndexAgrees, UniqueHolds, Lists, Marked, EntryKeys;
    TwoIdsAre();
    var db, changes, filter := TwoIds(), map["k" := TextValue("x")], [("k", TextValue("2"))];
    var s := db.store;
    assert filter[0] == ("k", TextValue("2")) && Str(Get(RowAt(s, "t", "1"), "k")) == "1";
    assert MatchesAt(s, "t", filter, "2") && !MatchesAt(s, "t", filter, "1");
    UpdateOfOne(db, "t", changes, filter, keys, "2");
    assert !TouchesUnique(KeyedById, changes);
    UpdateRowUnfolds(db, "t", KeyedById, changes, "2");
    var row: Row := map["id" := TextValue("x"), "k" := TextValue("x")];
    var before := RowAt(s, "t", "2");
    assert NewKey(KeyedById, changes, "2", before) == "x" && ChangedRow(KeyedById, changes, "2", before) == row;
    var s' := Written(s, "t", KeyedById, changes, "2") - EntryKeys("t", before, "2", KeyedById.indexes)
              + Marked(EntryKeys("t", row, "x", KeyedById.indexes));
    OnlyEntries("t", before, "2", KeyedById.indexes);
    OnlyEntries("t", row, "x", KeyedById.indexes);
    assert RowAt(s', "t", "1") == RowAt(s, "t", "1") && RowAt(s', "t", "x") == row;
    SharedValue(s', "t", KeyedById, "id", "1", "x");
  }

  lemma OnlyEntries(table: string, row: Row, r: string, cols: seq<string>)
    ensures forall k :: k in EntryKeys(table, row, r, cols) ==> k.IdxKey?
    ensures Marked(EntryKeys(table, row, r, cols)).Keys == EntryKeys(table, row, r, cols)
  {
  }

  const TwoUnique := Schema(["k", "u", "w"], 1, Some("k"), ["u", "w"], ["u", "w"])

  function OneRow(): Db {
    DbModel.Insert(FreshTable(TwoUnique), "t", ["k", "w"], [TextValue("1"), TextValue("b")]).0
  }

  lemma OneRowIs()
    ensures Autocommit(OneRow()) && TableOk(OneRow().store, "t", TwoUnique)
    ensures forall q :: RowKey("t", q) in OneRow().store <==> q == "1"
    ensures RowAt(OneRow().store, "t", "1") == map["id" := TextValue("1"), "k" := TextValue("1"), "w" := TextValue("b")]
  {
    hide TableOk, DbModel.Insert, WithRow;
    FreshIsFine(TwoUnique);
    TwoColumns("k", "w", TextValue("1"), TextValue("b"));
    var row := NewRow(map["k" := TextValue("1"), "w" := TextValue("b")], "1");
    assert row == map["id" := TextValue("1"), "k" := TextValue("1"), "w" := TextValue("b")];
    InsertKeyed(FreshTable(TwoUnique), TwoUnique, ["k", "w"], [TextValue("1"), TextValue("b")], "1", row);
    WithRowRows(FreshTable(TwoUnique).store, TwoUnique, "1", row);
  }

  /** In a table of one row, setting the primary key and the UNIQUE u ends in the UNIQUE error over the
      row's own, unchanged w, with the row moved and its entry left behind. */
  lemma LoneRowClashesWithItself(keys: seq<string>)
    requires Lists(keys, RowKeys(OneRow().store, "t"))
    ensures var (db', response) := Update(OneRow(), "t", map["k" := TextValue("2"), "u" := TextValue("c")], [], keys);
            && Autocommit(OneRow()) && TableOk(OneRow().store, "t", TwoUnique)
            && response == DuplicateUnique("w", "b")
            && RowKey("t", "2") in db'.store && RowKey("t", "1") !in db'.store
            && IdxKey("t", "w", "b", "1") in db'.store && !IndexAgrees(db'.store, "t", TwoUnique)
  {
    hide OneRow, Update, UpdateRow, CheckUnique, RowsOk, IndexAgrees, UniqueHolds, Lists;
    OneRowIs();
    var db, changes: Row := OneRow(), map["k" := TextValue("2"), "u" := TextValue("c")];
    var s := db.store;
    UpdateOfOne(db, "t", changes, [], keys, "1");
    assert "u" in TwoUnique.unique && "w" in TwoUnique.unique && TouchesUnique(TwoUnique, changes);
    var before := RowAt(s, "t", "1");
    var row := ChangedRow(TwoUnique, changes, "1", before);
    assert NewKey(TwoUnique, changes, "1", before) == "2" && row["w"] == TextValue("b") && row["u"] == TextValue("c");
    NotFree(s, "t", TwoUnique, row, "2", "w", "1");
    RowOutcome(db, "t", TwoUnique, changes, "1");
    UpdateRowUnfolds(db, "t", TwoUnique, changes, "1");
    EntryOf(s, "t", TwoUnique, "w", "1");
    WrittenEntries(s, "t", TwoUnique, changes, "1");
    ClashInLast(db.(store := Written(s, "t", TwoUnique, changes, "1")), s, row);
  }

  lemma ClashInLast(db: Db, s: Store, row: Row)
    requires Autocommit(db) && IndexAgrees(s, "t", TwoUnique) && CheckUnique(db, "t", row, "2", ["u", "w"]).Some?
    requires forall col, value, q :: IdxKey("t", col, value, q) in s <==> IdxKey("t", col, value, q) in db.store
    requires forall q :: RowKey("t", q) in s ==> "u" !in RowAt(s, "t", q)
    requires "u" in row && "w" in row && row["w"] == TextValue("b")
    ensures CheckUnique(db, "t", row, "2", ["u", "w"]) == Some(DuplicateUnique("w", "b"))
  {
    hide IndexAgrees, Taken, Str;
    assert ["u", "w"][1..] == ["w"] && ["w"][1..] == [];
    TakenMeans(db, "t", "u", Str(row["u"]), "2");
    NoEntryFor(s, TwoUnique, "u");
    assert !Taken(db, "t", "u", Str(row["u"]), "2");
    assert CheckUnique(db, "t", row, "2", []) == None;
    assert CheckUnique(db, "t", row, "2", ["w"]).Some?;
    TextIsItself("b");
  }

  lemma NoEntryFor(s: Store, schema: Schema, col: string)
    requires IndexAgrees(s, "t", schema) && forall q :: RowKey("t", q) in s ==> col !in RowAt(s, "t", q)
    ensures forall value, q :: IdxKey("t", col, value, q) !in s
  {
    forall value, q ensures IdxKey("t", col, value, q) !in s {
      assert IdxKey("t", col, value, q) in s <==> Holds(s, "t", schema, col, value, q);
    }
  }

  // ---- SELECT by an index misses rows without the column ----

  const Sparse := Schema(["a", "v"], 1, None, ["v"], [])

  /** One row, without v. */
  function NoV(): Db {
    DbModel.Insert(FreshTable(Sparse), "t", ["a"], [TextValue("1")]).0
  }

  /** Selecting where v is None finds the row by scanning and not by the index. */
  lemma SelectMissesRow()
    ensures Autocommit(NoV()) && TableOk(NoV().store, "t", Sparse.(nextId := 2))
    ensures Scan(NoV().store, "t", [("v", NoneValue)], Listing(RowKeys(NoV().store, "t")))
            == [map["id" := TextValue("1"), "a" := TextValue("1")]]
    ensures Select(NoV(), "t", [("v", NoneValue)]) == []
  {
    hide RowsOk, IndexAgrees, UniqueHolds, DbModel.Insert, WithRow, Decimal, Select, Scan, Sorted;
    FreshIsFine(Sparse);
    Digits12();
    OneColumn("a", TextValue("1"));
    var row := NewRow(map["a" := TextValue("1")], "1");
    InsertNumbered(FreshTable(Sparse), Sparse, ["a"], [TextValue("1")], "1", row);
    var bumped := Sparse.(nextId := 2);
    WithRowRows(FreshTable(Sparse).store[SchemaKey("t") := SchemaData(bumped)], bumped, "1", row);
    var filter := [("v", NoneValue)];
    assert "v" in bumped.indexes && IndexColumn(bumped, filter) == Some("v");
    assert row == map["id" := TextValue("1"), "a" := TextValue("1")] && Matches(row, filter);
    ScanOfOne(NoV().store, filter, "1");
    NoEntryFor(NoV().store, bumped, "v");
    SelectWithoutEntries(NoV(), bumped, filter, "v");
  }

  lemma ScanOfOne(s: Store, filter: Where, r: string)
    requires (forall q :: RowKey("t", q) in s <==> q == r) && Matches(RowAt(s, "t", r), filter)
    ensures Scan(s, "t", filter, Listing(RowKeys(s, "t"))) == [RowAt(s, "t", r)]
  {
    hide Matches, RowAt;
    assert RowKey("t", r) in s;
    assert forall k :: k in [r] <==> k in RowKeys(s, "t");
    ListsUnique(Listing(RowKeys(s, "t")), [r], RowKeys(s, "t"));
    assert [r][1..] == [];
    assert Scan(s, "t", filter, []) == [];
  }

  lemma SelectWithoutEntries(db: Db, schema: Schema, filter: Where, col: string)
    requires SchemaKey("t") in db.store && db.store[SchemaKey("t")] == SchemaData(schema)
    requires IndexColumn(schema, filter) == Some(col) && schema.primaryKey != Some(col)
    requires forall value, q :: IdxKey("t", col, value, q) !in db.store
    ensures Select(db, "t", filter) == []
  {
    hide IndexColumn, Str, Lookup;
    var rows := EntryRows(db.store.Keys, "t", col, Str(Lookup(filter, col)));
    assert rows == {} by {
      forall r ensures r !in rows {
        assert IdxKey("t", col, Str(Lookup(filter, col)), r) !in db.store;
      }
    }
    ListsUnique(Listing(rows), [], rows);
  }
}
