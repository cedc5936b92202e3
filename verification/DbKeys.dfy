/** The text of the row store's keys, and that matching by prefix and suffix as
    database.py does picks the keys the structural model picks. */
module DbKeys {
  import opened Wrappers
  import opened DbTypes
  import opened DbModel

  function Text(k: Key): string {
    match k
    case SchemaKey(table) => "_schema" + ":" + table
    case RowKey(table, row) => table + ":" + row
    case IdxKey(table, col, value, row) => "_idx" + ":" + (table + ":" + (col + "\0" + (value + "\0" + row)))
  }

  function RowPrefix(table: string): string {
    table + ":"
  }

  function EntryPrefix(table: string, col: string, value: string): string {
    "_idx" + ":" + (table + ":" + (col + "\0" + (value + "\0")))
  }

  function EndsWith(s: string, end: string): bool {
    |end| <= |s| && s[|s| - |end|..] == end
  }

  /** Table names hold no colon and are not the names of the store's own keys. */
  predicate PlainTable(table: string) {
    ':' !in table && table != "_idx" && table != "_schema"
  }

  predicate PlainKey(k: Key) {
    match k
    case SchemaKey(table) => PlainTable(table)
    case RowKey(table, row) => PlainTable(table) && '\0' !in row
    case IdxKey(table, col, value, row) => PlainTable(table) && '\0' !in col && '\0' !in value && '\0' !in row
  }

  lemma ConsPrefix(s: string, t: string)
    requires s != [] && t != []
    ensures s <= t <==> s[0] == t[0] && s[1..] <= t[1..]
  {
    assert s == [s[0]] + s[1..] && t == [t[0]] + t[1..];
  }

  /** The first separator splits both texts alike. */
  lemma {:induction false} PrefixSplits(a: string, x: string, b: string, y: string, c: char)
    requires c !in a && c !in b
    ensures a + [c] + x <= b + [c] + y <==> a == b && x <= y
    decreases |a|
  {
    var s, t := a + [c] + x, b + [c] + y;
    ConsPrefix(s, t);
    assert s[1..] == if a == [] then x else a[1..] + [c] + x;
    assert t[1..] == if b == [] then y else b[1..] + [c] + y;
    if a != [] && b != [] {
      PrefixSplits(a[1..], x, b[1..], y, c);
      assert a == [a[0]] + a[1..] && b == [b[0]] + b[1..];
    }
  }

  lemma TextSplits(a: string, x: string, b: string, y: string, c: char)
    requires c !in a && c !in b && a + [c] + x == b + [c] + y
    ensures a == b && x == y
  {
    PrefixSplits(a, x, b, y, c);
    PrefixSplits(b, y, a, x, c);
  }

  /** Different keys have different texts. */
  lemma TextInjective(k: Key, l: Key)
    requires PlainKey(k) && PlainKey(l) && Text(k) == Text(l)
    ensures k == l
  {
    var (a, x) := Ends(k);
    var (b, y) := Ends(l);
    TextSplits(a, x, b, y, ':');
    if k.IdxKey? && l.IdxKey? {
      var u, v := k.col + "\0" + (k.value + "\0" + k.row), l.col + "\0" + (l.value + "\0" + l.row);
      TextSplits(k.table, u, l.table, v, ':');
      TextSplits(k.col, k.value + "\0" + k.row, l.col, l.value + "\0" + l.row, '\0');
      TextSplits(k.value, k.row, l.value, l.row, '\0');
    }
  }

  /** What stands before and after the first colon. */
  function Ends(k: Key): (r: (string, string))
    requires PlainKey(k)
    ensures ':' !in r.0 && Text(k) == r.0 + ":" + r.1
    ensures if k.SchemaKey? then r == ("_schema", k.table)
            else if k.RowKey? then r == (k.table, k.row) else r.0 == "_idx"
  {
    match k
    case SchemaKey(table) => ("_schema", table)
    case RowKey(table, row) => (table, row)
    case IdxKey(table, col, value, row) => ("_idx", table + ":" + (col + "\0" + (value + "\0" + row)))
  }

  /** The scan over `{table}:` meets the table's rows and nothing else. */
  lemma RowPrefixIff(k: Key, table: string)
    requires PlainKey(k) && PlainTable(table)
    ensures RowPrefix(table) <= Text(k) <==> k.RowKey? && k.table == table
  {
    var (b, y) := Ends(k);
    assert table + ":" + [] == table + ":";
    PrefixSplits(table, [], b, y, ':');
  }

  /** Which entries a scan for a value meets, whatever the values contain: those of the value itself
      and those of a value that continues it with a NUL. */
  lemma EntryPrefixIff(k: Key, table: string, col: string, value: string)
    requires PlainTable(table) && '\0' !in col
    requires PlainKey(if k.IdxKey? then k.(value := "") else k)
    ensures EntryPrefix(table, col, value) <= Text(k)
            <==> k.IdxKey? && k.table == table && k.col == col && (k.value == value || value + "\0" <= k.value)
  {
    if k.IdxKey? {
      var u, v := col + "\0" + (value + "\0"), k.col + "\0" + (k.value + "\0" + k.row);
      PrefixSplits("_idx", table + ":" + u, "_idx", k.table + ":" + v, ':');
      PrefixSplits(table, u, k.table, v, ':');
      PrefixSplits(col, value + "\0", k.col, k.value + "\0" + k.row, '\0');
      ValueContinues(value, k.value, k.row);
    } else {
      var (b, y) := Ends(k);
      PrefixSplits("_idx", table + ":" + (col + "\0" + (value + "\0")), b, y, ':');
    }
  }

  lemma PrefixHas(u: string, c: char, t: string)
    ensures u + [c] <= t ==> c in t
  {
    if u + [c] <= t {
      assert t[|u|] == (u + [c])[|u|];
    }
  }

  lemma {:induction false} ValueContinues(value: string, other: string, row: string)
    requires '\0' !in row
    ensures value + "\0" <= other + "\0" + row <==> value == other || value + "\0" <= other
    decreases |value|
  {
    var s, t := value + "\0", other + "\0" + row;
    ConsPrefix(s, t);
    assert s[1..] == if value == [] then [] else value[1..] + "\0";
    assert t[1..] == if other == [] then row else other[1..] + "\0" + row;
    if other == [] {
      if value != [] {
        PrefixHas(value[1..], '\0', row);
      }
    } else {
      ConsPrefix(s, other);
      if value != [] {
        ValueContinues(value[1..], other[1..], row);
        assert value == [value[0]] + value[1..] && other == [other[0]] + other[1..];
      }
    }
  }

  lemma LastEnds(s: string, x: char, end: string, y: char)
    ensures EndsWith(s + [x], end + [y]) <==> x == y && EndsWith(s, end)
  {
    if |end| <= |s| {
      var at := |s| - |end|;
      assert (s + [x])[at..] == s[at..] + [x];
      assert (s[at..] + [x])[..|end|] == s[at..] && (end + [y])[..|end|] == end;
      assert (s[at..] + [x])[|end|] == x && (end + [y])[|end|] == y;
    }
  }

  /** The row key is what follows the last NUL. */
  lemma {:induction false} LastNulSplits(head: string, a: string, b: string)
    requires '\0' !in a && '\0' !in b
    ensures EndsWith(head + "\0" + a, "\0" + b) <==> a == b
    decreases |a|
  {
    hide EndsWith;
    var s := if a == [] then head else head + "\0" + a[..|a| - 1];
    var end := if b == [] then [] else "\0" + b[..|b| - 1];
    var x, y := if a == [] then '\0' else a[|a| - 1], if b == [] then '\0' else b[|b| - 1];
    assert head + "\0" + a == s + [x] && "\0" + b == end + [y];
    LastEnds(s, x, end, y);
    if a == [] && b == [] {
      EndsEmpty(s);
    } else if a != [] && b != [] {
      LastNulSplits(head, a[..|a| - 1], b[..|b| - 1]);
      assert a == a[..|a| - 1] + [x] && b == b[..|b| - 1] + [y];
    }
  }

  lemma EndsEmpty(s: string)
    ensures EndsWith(s, [])
  {
  }

  lemma RowSuffixIff(k: Key, row: string)
    requires k.IdxKey? && '\0' !in k.row && '\0' !in row
    ensures EndsWith(Text(k), "\0" + row) <==> k.row == row
  {
    hide EndsWith;
    var head := "_idx" + ":" + (k.table + ":" + (k.col + "\0" + k.value));
    assert Text(k) == head + "\0" + k.row;
    LastNulSplits(head, k.row, row);
  }

  /** `_check_unique_violation` on texts: some key has the prefix and not the row's own ending. */
  ghost predicate TextTaken(keys: set<Key>, table: string, col: string, value: string, rowKey: string) {
    exists k :: k in keys && EntryPrefix(table, col, value) <= Text(k) && !EndsWith(Text(k), "\0" + rowKey)
  }

  /** Names and row keys in order; an indexed value may be anything. */
  predicate PlainButValue(k: Key) {
    PlainKey(if k.IdxKey? then k.(value := "") else k)
  }

  /** An entry of the column under another row, for the value or for one that continues it with a NUL. */
  predicate Clashing(k: Key, table: string, col: string, value: string, rowKey: string) {
    && k.IdxKey? && k.table == table && k.col == col && k.row != rowKey
    && (k.value == value || value + "\0" <= k.value)
  }

  /** What the check on texts finds, whatever the values contain. */
  lemma TextTakenIff(keys: set<Key>, table: string, col: string, value: string, rowKey: string)
    requires forall k :: k in keys ==> PlainButValue(k)
    requires PlainTable(table) && '\0' !in col && '\0' !in rowKey
    ensures TextTaken(keys, table, col, value, rowKey)
            <==> exists k :: k in keys && Clashing(k, table, col, value, rowKey)
  {
    hide Text, EntryPrefix, EndsWith;
    forall k | k in keys
      ensures EntryPrefix(table, col, value) <= Text(k) && !EndsWith(Text(k), "\0" + rowKey)
              <==> Clashing(k, table, col, value, rowKey)
    {
      EntryPrefixIff(k, table, col, value);
      if k.IdxKey? {
        RowSuffixIff(k, rowKey);
      }
    }
  }

  /** With values free of NUL the check on texts is the check on entries. */
  lemma TakenIsTextual(keys: set<Key>, table: string, col: string, value: string, rowKey: string)
    requires forall k :: k in keys ==> PlainKey(k)
    requires PlainTable(table) && '\0' !in col && '\0' !in value && '\0' !in rowKey
    ensures TextTaken(keys, table, col, value, rowKey) <==> EntryRows(keys, table, col, value) - {rowKey} != {}
  {
    hide Text, EntryPrefix, EndsWith, TextTaken;
    TextTakenIff(keys, table, col, value, rowKey);
    if k :| k in keys && Clashing(k, table, col, value, rowKey) {
      PrefixHas(value, '\0', k.value);
      assert k.row in EntryRows(keys, table, col, value) - {rowKey};
    }
    if EntryRows(keys, table, col, value) - {rowKey} != {} {
      var row :| row in EntryRows(keys, table, col, value) - {rowKey};
      assert Clashing(IdxKey(table, col, value, row), table, col, value, rowKey);
    }
  }

  /** `_check_unique_violation` over the pending keys and the stored ones, by their texts. */
  ghost function TextCheckUnique(db: Db, table: string, row: Row, rowKey: string, unique: seq<string>): Option<Response>
    decreases |unique|
  {
    if unique == [] then None
    else
      var u := unique[0];
      if u in row && (TextTaken(db.changes.Keys, table, u, Str(row[u]), rowKey)
                      || TextTaken(db.store.Keys, table, u, Str(row[u]), rowKey))
      then Some(DuplicateUnique(u, Str(row[u])))
      else TextCheckUnique(db, table, row, rowKey, unique[1..])
  }

  /** On keys, columns and values without the separators the whole check answers as on entries. */
  lemma {:induction false} CheckIsTextual(db: Db, table: string, row: Row, rowKey: string, unique: seq<string>)
    requires forall k :: k in db.changes.Keys + db.store.Keys ==> PlainKey(k)
    requires PlainTable(table) && '\0' !in rowKey
    requires forall u :: u in unique ==> '\0' !in u && (u in row ==> '\0' !in Str(row[u]))
    ensures TextCheckUnique(db, table, row, rowKey, unique) == CheckUnique(db, table, row, rowKey, unique)
    decreases |unique|
  {
    hide TextTaken, Str, PlainKey;
    if unique != [] {
      var u := unique[0];
      if u in row {
        TakenIsTextual(db.changes.Keys, table, u, Str(row[u]), rowKey);
        TakenIsTextual(db.store.Keys, table, u, Str(row[u]), rowKey);
      }
      CheckIsTextual(db, table, row, rowKey, unique[1..]);
    }
  }

  /** A stored "a\0b" makes the UNIQUE check refuse "a", which no row holds. */
  lemma NulValueRefused()
    ensures var keys := {IdxKey("t", "c", "a\0b", "1")};
            TextTaken(keys, "t", "c", "a", "2") && EntryRows(keys, "t", "c", "a") == {}
  {
    hide Text, EntryPrefix, EndsWith;
    var k := IdxKey("t", "c", "a\0b", "1");
    EntryPrefixIff(k, "t", "c", "a");
    RowSuffixIff(k, "2");
    assert "a" + "\0" <= "a\0b";
  }
}
