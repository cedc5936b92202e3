/** Values, rows, keys and schemas of the row store in database.py.  Byte keys
    are modelled structurally; JSON encoding is the identity. */
module DbTypes {
  import opened Wrappers

  datatype Value = NoneValue | IntValue(n: int) | TextValue(s: string)

  type Row = map<string, Value>

  datatype Schema = Schema(columns: seq<string>, nextId: nat, primaryKey: Option<string>,
                           indexes: seq<string>, unique: seq<string>)

  /** `_schema:{table}`, `{table}:{row}` and `_idx:{table}:{col}\0{value}\0{row}`. */
  datatype Key =
    | SchemaKey(table: string)
    | RowKey(table: string, row: string)
    | IdxKey(table: string, col: string, value: string, row: string)

  datatype Stored = SchemaData(schema: Schema) | RowData(data: Row) | Marker

  /** A WHERE clause: column/value pairs in the order they were written. */
  type Where = seq<(string, Value)>

  datatype Event =
    | InsertEvent(table: string, row: Row)
    | UpdateEvent(table: string, changes: Row, filter: Where, rows: seq<Row>)
    | DeleteEvent(table: string, filter: Where, rows: seq<Row>)

  datatype Response =
    | NoSuchTable
    | Inserted
    | Updated(count: nat)
    | Deleted(count: nat)
    | DuplicateKey(key: string)
    | DuplicateUnique(col: string, value: string)

  function Decimal(n: nat): (s: string)
    ensures s != []
  {
    if n < 10 then [(n + '0' as int) as char] else Decimal(n / 10) + [(n % 10 + '0' as int) as char]
  }

  /** Python's `str` on the values above. */
  function Str(v: Value): string {
    match v
    case NoneValue => "None"
    case IntValue(n) => if n < 0 then "-" + Decimal(-n) else Decimal(n)
    case TextValue(s) => s
  }

  /** `row.get(col)`. */
  function Get(row: Row, col: string): Value {
    if col in row then row[col] else NoneValue
  }

  predicate Matches(row: Row, filter: Where) {
    forall i :: 0 <= i < |filter| ==> Str(Get(row, filter[i].0)) == Str(filter[i].1)
  }

  lemma {:induction false} DecimalInjective(a: nat, b: nat)
    requires Decimal(a) == Decimal(b)
    ensures a == b
  {
    var s, t := Decimal(a), Decimal(b);
    assert s[|s| - 1] == t[|t| - 1];
    if a >= 10 && b >= 10 {
      assert s[..|s| - 1] == Decimal(a / 10) && t[..|t| - 1] == Decimal(b / 10);
      DecimalInjective(a / 10, b / 10);
    }
  }
}

/** Byte order of keys, and iterators as sorted snapshots. */
module KeyOrder {
  /** Lexicographic order of strings. */
  predicate Leq(a: string, b: string) {
    if a == [] then true
    else if b == [] then false
    else if a[0] != b[0] then a[0] < b[0]
    else Leq(a[1..], b[1..])
  }

  lemma LeqTotal(a: string, b: string)
    ensures Leq(a, b) || Leq(b, a)
  {
  }

  lemma {:induction false} LeqAntisymmetric(a: string, b: string)
    requires Leq(a, b) && Leq(b, a)
    ensures a == b
  {
    if a != [] && b != [] {
      LeqAntisymmetric(a[1..], b[1..]);
      assert a == [a[0]] + a[1..] && b == [b[0]] + b[1..];
    }
  }

  lemma {:induction false} LeqTransitive(a: string, b: string, c: string)
    requires Leq(a, b) && Leq(b, c)
    ensures Leq(a, c)
  {
    if a != [] && c != [] && a[0] == b[0] == c[0] {
      LeqTransitive(a[1..], b[1..], c[1..]);
    }
  }

  lemma {:induction false} LeqReflexive(s: string)
    ensures Leq(s, s)
    decreases |s|
  {
    if s != [] {
      LeqReflexive(s[1..]);
    }
  }

  lemma {:induction false} LeqConcat(a: string, s: string, t: string)
    ensures Leq(a + s, a + t) <==> Leq(s, t)
    decreases |a|
  {
    if a == [] {
      assert a + s == s && a + t == t;
    } else {
      assert (a + s)[1..] == a[1..] + s && (a + t)[1..] == a[1..] + t;
      LeqConcat(a[1..], s, t);
    }
  }

  /** Strings of one length that differ before their last character. */
  lemma {:induction false} LeqFront(s: string, t: string, a: char, b: char)
    requires |s| == |t|
    ensures Leq(s + [a], t + [b]) <==> (if s == t then a <= b else Leq(s, t))
    decreases |s|
  {
    if s == [] {
      assert s + [a] == [a] && t + [b] == [b];
      assert [a][1..] == [] && [b][1..] == [];
    } else {
      assert (s + [a])[1..] == s[1..] + [a] && (t + [b])[1..] == t[1..] + [b];
      LeqFront(s[1..], t[1..], a, b);
      assert s == [s[0]] + s[1..] && t == [t[0]] + t[1..];
    }
  }

  predicate Sorted(s: seq<string>) {
    forall i, j :: 0 <= i < j < |s| ==> Leq(s[i], s[j]) && s[i] != s[j]
  }

  /** `s` lists the elements of `keys`, each once, in key order. */
  ghost predicate Lists(s: seq<string>, keys: set<string>) {
    Sorted(s) && forall k :: k in s <==> k in keys
  }

  lemma {:induction false} ListsUnique(s: seq<string>, t: seq<string>, keys: set<string>)
    requires Lists(s, keys) && Lists(t, keys)
    ensures s == t
    decreases |s|
  {
    if s == [] {
      assert forall i :: 0 <= i < |t| ==> t[i] in s;
    } else {
      assert s[0] in s;
      assert s[0] in t;
      assert t[0] in t;
      var i :| 0 <= i < |t| && t[i] == s[0];
      var j :| 0 <= j < |s| && s[j] == t[0];
      assert Leq(s[0], s[0]) by { LeqTotal(s[0], s[0]); }
      assert Leq(t[0], s[0]) by { if i > 0 { assert Leq(t[0], t[i]); } }
      assert Leq(s[0], t[0]) by { if j > 0 { assert Leq(s[0], s[j]); } }
      LeqAntisymmetric(s[0], t[0]);
      ListsTail(s, keys);
      ListsTail(t, keys);
      ListsUnique(s[1..], t[1..], keys - {s[0]});
      assert s == [s[0]] + s[1..] && t == [t[0]] + t[1..];
    }
  }

  lemma ListsTail(s: seq<string>, keys: set<string>)
    requires Lists(s, keys) && s != []
    ensures Lists(s[1..], keys - {s[0]})
  {
    forall k ensures k in s[1..] <==> k in keys - {s[0]} {
      if k in keys - {s[0]} {
        var i :| 0 <= i < |s| && s[i] == k;
        assert s[1..][i - 1] == k;
      }
      if k in s[1..] {
        var i :| 0 <= i < |s[1..]| && s[1..][i] == k;
        assert s[i + 1] == k;
      }
    }
  }

  /** Insert one key into a sorted list. */
  function InsertKey(k: string, s: seq<string>): (r: seq<string>) {
    if s == [] then [k]
    else if k == s[0] then s
    else if Leq(k, s[0]) then [k] + s
    else [s[0]] + InsertKey(k, s[1..])
  }

  lemma {:induction false} InsertLists(k: string, s: seq<string>, keys: set<string>)
    requires Lists(s, keys)
    ensures Lists(InsertKey(k, s), keys + {k})
    decreases |s|
  {
    if s == [] {
      assert InsertKey(k, s) == [k];
    } else if k == s[0] {
      assert k in s;
      assert keys + {k} == keys;
    } else if Leq(k, s[0]) {
      var r := [k] + s;
      forall i | 0 <= i < |s| ensures Leq(k, s[i]) && k != s[i] {
        if i > 0 {
          LeqTransitive(k, s[0], s[i]);
          if k == s[i] { LeqAntisymmetric(s[0], s[i]); }
        }
      }
      assert forall x :: x in r <==> x == k || x in s;
    } else {
      LeqTotal(k, s[0]);
      ListsTail(s, keys);
      InsertLists(k, s[1..], keys - {s[0]});
      var t := InsertKey(k, s[1..]);
      forall i | 0 <= i < |t| ensures Leq(s[0], t[i]) && s[0] != t[i] {
        assert t[i] in t;
        if t[i] != k {
          assert t[i] in s[1..];
          var j :| 0 <= j < |s[1..]| && s[1..][j] == t[i];
          assert s[j + 1] == t[i];
        }
      }
      assert s[0] in s;
      assert forall x :: x in [s[0]] + t <==> x == s[0] || x in t;
    }
  }

  /** An iterator over `keys`: a snapshot of them in key order. */
  method Iterate(keys: set<string>) returns (s: seq<string>)
    ensures Lists(s, keys)
  {
    s := [];
    var todo := keys;
    while todo != {}
      invariant todo <= keys && Lists(s, keys - todo)
      decreases todo
    {
      var k :| k in todo;
      InsertLists(k, s, keys - todo);
      s := InsertKey(k, s);
      assert keys - (todo - {k}) == (keys - todo) + {k};
      todo := todo - {k};
    }
    assert keys - todo == keys;
  }

  lemma {:induction false} SomeListing(keys: set<string>) returns (s: seq<string>)
    ensures Lists(s, keys)
    decreases |keys|
  {
    if keys == {} {
      s := [];
    } else {
      var k :| k in keys;
      var t := SomeListing(keys - {k});
      InsertLists(k, t, keys - {k});
      s := InsertKey(k, t);
      assert keys - {k} + {k} == keys;
    }
  }

  lemma ListingExists(keys: set<string>)
    ensures exists s :: Lists(s, keys)
  {
    var s := SomeListing(keys);
  }

  /** The one sorted listing of `keys`. */
  ghost function Listing(keys: set<string>): (s: seq<string>)
    ensures Lists(s, keys)
  {
    ListingExists(keys);
    var s :| Lists(s, keys);
    s
  }
}
