/** The SQL dump of export_import.py: what it writes, and that the splitter reads it back. */
module SqlDump {
  import opened Wrappers
  import opened SqlSplit
  import DbTypes

  // ---- Quoting values ----

  /** Number carries the text Python prints for it, Json the text `json.dumps` gives. */
  datatype Value = Null | Number(text: string) | Text(s: string) | Json(text: string)

  /** `s.replace(c, w)` for a single character c. */
  function Replace(s: string, c: char, w: string): string {
    if s == [] then [] else (if s[0] == c then w else [s[0]]) + Replace(s[1..], c, w)
  }

  function EscapeText(s: string): string {
    Replace(Replace(Replace(Replace(s, '\\', "\\\\"), '\'', "''"), '\n', "\\n"), '\r', "\\r")
  }

  function EscapeJson(s: string): string {
    Replace(Replace(s, '\'', "''"), '\\', "\\\\")
  }

  function QuoteValue(v: Value): string {
    match v
    case Null => "NULL"
    case Number(text) => text
    case Json(text) => "'" + EscapeJson(text) + "'"
    case Text(s) => "'" + EscapeText(s) + "'"
  }

  /** What the successive replacements make of one character. */
  function Unit(c: char, lines: bool): (u: string)
    ensures 1 <= |u| <= 2
  {
    if c == '\\' then "\\\\"
    else if c == '\'' then "''"
    else if lines && c == '\n' then "\\n"
    else if lines && c == '\r' then "\\r"
    else [c]
  }

  function Units(s: string, lines: bool): string {
    if s == [] then [] else Unit(s[0], lines) + Units(s[1..], lines)
  }

  lemma {:induction false} ReplaceConcat(a: string, b: string, c: char, w: string)
    ensures Replace(a + b, c, w) == Replace(a, c, w) + Replace(b, c, w)
    decreases |a|
  {
    if a == [] {
      assert a + b == b;
    } else {
      ReplaceConcat(a[1..], b, c, w);
      assert (a + b)[1..] == a[1..] + b;
      var first, x, y := if a[0] == c then w else [a[0]], Replace(a[1..], c, w), Replace(b, c, w);
      assert Replace(a, c, w) == first + x && Replace(a + b, c, w) == first + (x + y);
    }
  }

  lemma ReplaceOne(x: char, c: char, w: string)
    ensures Replace([x], c, w) == if x == c then w else [x]
  {
  }

  lemma ReplaceTwo(x: char, y: char, c: char, w: string)
    ensures Replace([x, y], c, w) == (if x == c then w else [x]) + (if y == c then w else [y])
  {
    ReplaceConcat([x], [y], c, w);
    ReplaceOne(x, c, w);
    ReplaceOne(y, c, w);
    assert [x] + [y] == [x, y];
  }

  lemma EscapeOne(c: char)
    ensures EscapeText([c]) == Unit(c, true) && EscapeJson([c]) == Unit(c, false)
  {
    hide Replace;
    ReplaceOne(c, '\\', "\\\\");
    ReplaceOne(c, '\'', "''");
    ReplaceOne(c, '\n', "\\n");
    ReplaceOne(c, '\r', "\\r");
    ReplaceTwo('\\', '\\', '\'', "''");
    ReplaceTwo('\\', '\\', '\n', "\\n");
    ReplaceTwo('\\', '\\', '\r', "\\r");
    ReplaceTwo('\'', '\'', '\n', "\\n");
    ReplaceTwo('\'', '\'', '\r', "\\r");
    ReplaceTwo('\'', '\'', '\\', "\\\\");
    ReplaceTwo('\\', 'n', '\r', "\\r");
    assert "\\\\" == ['\\', '\\'] && "''" == ['\'', '\''] && "\\n" == ['\\', 'n'];
    assert ['\\'] + ['\\'] == ['\\', '\\'] && ['\''] + ['\''] == ['\'', '\''] && ['\\'] + ['n'] == ['\\', 'n'];
  }

  lemma EscapeConcat(a: string, b: string)
    ensures EscapeText(a + b) == EscapeText(a) + EscapeText(b) && EscapeJson(a + b) == EscapeJson(a) + EscapeJson(b)
  {
    hide Replace;
    ReplaceConcat(a, b, '\\', "\\\\");
    var a1, b1 := Replace(a, '\\', "\\\\"), Replace(b, '\\', "\\\\");
    ReplaceConcat(a1, b1, '\'', "''");
    var a2, b2 := Replace(a1, '\'', "''"), Replace(b1, '\'', "''");
    ReplaceConcat(a2, b2, '\n', "\\n");
    ReplaceConcat(Replace(a2, '\n', "\\n"), Replace(b2, '\n', "\\n"), '\r', "\\r");
    ReplaceConcat(a, b, '\'', "''");
    ReplaceConcat(Replace(a, '\'', "''"), Replace(b, '\'', "''"), '\\', "\\\\");
  }

  /** The chained whole-string replacements act on each character separately. */
  lemma {:induction false} EscapeIsUnits(s: string)
    ensures EscapeText(s) == Units(s, true) && EscapeJson(s) == Units(s, false)
    decreases |s|
  {
    hide EscapeText, EscapeJson;
    if s == [] {
      NothingEscaped();
    } else {
      EscapeConcat([s[0]], s[1..]);
      EscapeOne(s[0]);
      EscapeIsUnits(s[1..]);
      assert [s[0]] + s[1..] == s;
    }
  }

  lemma NothingEscaped()
    ensures EscapeText([]) == [] && EscapeJson([]) == []
  {
  }

  lemma UnitInjective(a: char, b: char, lines: bool, x: string, y: string)
    requires Unit(a, lines) + x == Unit(b, lines) + y
    ensures a == b && x == y
  {
    var u, v := Unit(a, lines), Unit(b, lines);
    assert (u + x)[0] == u[0] && (v + y)[0] == v[0];
    assert |u| == 2 && |v| == 2 ==> (u + x)[1] == u[1] && (v + y)[1] == v[1];
    assert (u + x)[|u|..] == x && (v + y)[|v|..] == y;
  }

  lemma {:induction false} UnitsInjective(a: string, b: string, lines: bool)
    requires Units(a, lines) == Units(b, lines)
    ensures a == b
    decreases |a|
  {
    hide Unit;
    if a != [] && b != [] {
      UnitInjective(a[0], b[0], lines, Units(a[1..], lines), Units(b[1..], lines));
      UnitsInjective(a[1..], b[1..], lines);
      assert a == [a[0]] + a[1..] && b == [b[0]] + b[1..];
    }
  }

  /** Different strings are dumped differently. */
  lemma QuotingInjective(a: string, b: string)
    requires QuoteValue(Text(a)) == QuoteValue(Text(b))
    ensures a == b
  {
    hide EscapeText;
    var x, y := QuoteValue(Text(a)), QuoteValue(Text(b));
    assert x[1..|x| - 1] == EscapeText(a) && y[1..|y| - 1] == EscapeText(b);
    EscapeIsUnits(a);
    EscapeIsUnits(b);
    UnitsInjective(a, b, true);
  }

  // ---- Dumping a table ----

  type Row = map<string, Value>

  datatype Table = Table(
    name: string, columns: seq<string>, types: map<string, string>, primaryKey: Option<string>,
    indexes: set<string>, uniques: set<string>, nextId: nat, rows: seq<Row>)

  function Join(parts: seq<string>, sep: string): string {
    if parts == [] then [] else if |parts| == 1 then parts[0] else parts[0] + sep + Join(parts[1..], sep)
  }

  function ColumnType(t: Table, col: string): string {
    if col in t.types then t.types[col] else "TEXT"
  }

  function ColumnSpec(t: Table, col: string): string {
    col + " " + ColumnType(t, col)
    + (if Some(col) == t.primaryKey then " PRIMARY KEY" else if col in t.uniques then " UNIQUE" else "")
    + (if col in t.indexes && col !in t.uniques then " INDEX" else "")
  }

  function ColumnSpecs(t: Table, columns: seq<string>): seq<string> {
    if columns == [] then [] else [ColumnSpec(t, columns[0])] + ColumnSpecs(t, columns[1..])
  }

  function Present(columns: seq<string>, row: Row): seq<string> {
    if columns == [] then [] else (if columns[0] in row then [columns[0]] else []) + Present(columns[1..], row)
  }

  function Quoted(columns: seq<string>, row: Row): seq<string> {
    if columns == [] then []
    else (if columns[0] in row then [QuoteValue(row[columns[0]])] else []) + Quoted(columns[1..], row)
  }

  function InsertStatement(t: Table, row: Row): string {
    "INSERT INTO " + t.name + " (" + Join(Present(t.columns, row), ", ") + ") VALUES ("
    + Join(Quoted(t.columns, row), ", ") + ")"
  }

  function InsertStatements(t: Table, rows: seq<Row>): seq<string> {
    if rows == [] then [] else [InsertStatement(t, rows[0])] + InsertStatements(t, rows[1..])
  }

  function SetsNextId(t: Table): bool {
    t.primaryKey.Some? && t.primaryKey.value != [] && t.nextId > 1
  }

  function TableStatements(t: Table): seq<string> {
    ["DROP TABLE IF EXISTS " + t.name,
     "CREATE TABLE " + t.name + " (" + Join(ColumnSpecs(t, t.columns), ", ") + ")"]
    + (if t.rows != [] && SetsNextId(t) then ["SET TABLE " + t.name + " next_id " + DbTypes.Decimal(t.nextId)] else [])
    + InsertStatements(t, t.rows)
  }

  // ---- Dump files ----

  /** A dump line below the header: a statement, or an empty line. */
  type Item = Option<string>

  function Lines(items: seq<Item>): seq<string> {
    if items == [] then []
    else [if items[0].Some? then items[0].value + ";" else ""] + Lines(items[1..])
  }

  function Statements(items: seq<Item>): seq<string> {
    if items == [] then []
    else (if items[0].Some? then [items[0].value] else []) + Statements(items[1..])
  }

  function Items(statements: seq<string>): seq<Item> {
    if statements == [] then [] else [Some(statements[0])] + Items(statements[1..])
  }

  function DumpText(header: string, items: seq<Item>): string {
    Join([header] + Lines(items), "\n")
  }

  function Preamble(db: string): seq<Item> {
    [Some("CREATE DATABASE " + db), Some("USE " + db), None]
  }

  function TablesItems(tables: seq<Table>): seq<Item> {
    if tables == [] then [] else Items(TableStatements(tables[0])) + [None] + TablesItems(tables[1..])
  }

  function DatabaseHeader(db: string): string {
    "-- KosDB dump of database '" + db + "'"
  }

  function TableHeader(db: string, t: Table): string {
    "-- KosDB dump of " + db + "." + t.name
  }

  /** None where the source uses `lines` before assigning it. */
  function DatabaseDump(db: string, tables: seq<Table>): Option<string> {
    if tables == [] then None else Some(DumpText(DatabaseHeader(db), Preamble(db) + TablesItems(tables)))
  }

  function TableDump(db: string, t: Table): string {
    DumpText(TableHeader(db, t), Preamble(db) + Items(TableStatements(t)))
  }

  // ---- The source's loops ----

  method DumpTable(t: Table) returns (lines: seq<string>)
    ensures lines == Lines(Items(TableStatements(t)))
  {
    hide ColumnSpec, InsertStatement, DbTypes.Decimal, Join, Items, Lines;
    var specs := CollectSpecs(t);
    var drop, create := "DROP TABLE IF EXISTS " + t.name, "CREATE TABLE " + t.name + " (" + Join(specs, ", ") + ")";
    lines := [drop + ";", create + ";"];
    if t.rows == [] {
      StartLines(drop, create, []);
      assert TableStatements(t) == [drop, create] + [];
      NoItems();
      return;
    }
    ghost var head, inserts := [drop, create], InsertStatements(t, t.rows);
    NoItems();
    StartLines(drop, create, []);
    assert head + [] == head;
    if SetsNextId(t) {
      var setNextId := "SET TABLE " + t.name + " next_id " + DbTypes.Decimal(t.nextId);
      lines := lines + [setNextId + ";"];
      LinesSnoc(head, setNextId);
      head := head + [setNextId];
    }
    var inserted := InsertLines(t);
    lines := lines + inserted;
    LinesConcat(head, inserts);
  }

  method InsertLines(t: Table) returns (lines: seq<string>)
    ensures lines == Lines(Items(InsertStatements(t, t.rows)))
  {
    hide InsertStatement, Items, Lines;
    lines := [];
    var i := 0;
    NoItems();
    assert t.rows[0..] == t.rows && t.rows[..0] == [];
    while i < |t.rows|
      invariant i <= |t.rows|
      invariant lines == Lines(Items(InsertStatements(t, t.rows[..i])))
    {
      var line := InsertLine(t, t.rows[i]);
      InsertsSnoc(t, t.rows[..i], t.rows[i]);
      LinesSnoc(InsertStatements(t, t.rows[..i]), InsertStatement(t, t.rows[i]));
      assert t.rows[..i + 1] == t.rows[..i] + [t.rows[i]];
      lines := lines + [line];
      i := i + 1;
    }
    assert t.rows[..i] == t.rows;
  }

  lemma {:induction false} InsertsSnoc(t: Table, rows: seq<Row>, row: Row)
    ensures InsertStatements(t, rows + [row]) == InsertStatements(t, rows) + [InsertStatement(t, row)]
    decreases |rows|
  {
    hide InsertStatement;
    if rows == [] {
      assert rows + [row] == [row];
    } else {
      assert (rows + [row])[1..] == rows[1..] + [row];
      InsertsSnoc(t, rows[1..], row);
    }
  }

  lemma NoItems()
    ensures Lines(Items([])) == []
  {
  }

  lemma {:induction false} LinesConcat(a: seq<string>, b: seq<string>)
    ensures Lines(Items(a + b)) == Lines(Items(a)) + Lines(Items(b))
    decreases |a|
  {
    hide Lines, Items;
    if a == [] {
      NoItems();
      assert a + b == b;
    } else {
      LinesConcat(a[1..], b);
      ItemsCons(a[0], a[1..] + b);
      ItemsCons(a[0], a[1..]);
      assert [a[0]] + (a[1..] + b) == a + b && [a[0]] + a[1..] == a;
    }
  }

  lemma LinesSnoc(a: seq<string>, s: string)
    ensures Lines(Items(a + [s])) == Lines(Items(a)) + [s + ";"]
  {
    hide Lines, Items;
    LinesConcat(a, [s]);
    ItemsCons(s, []);
    NoItems();
    assert [s] + [] == [s];
  }

  lemma ItemsCons(s: string, rest: seq<string>)
    ensures Lines(Items([s] + rest)) == [s + ";"] + Lines(Items(rest))
  {
    assert ([s] + rest)[1..] == rest;
    assert Items([s] + rest)[1..] == Items(rest);
  }

  lemma StartLines(a: string, b: string, rest: seq<string>)
    ensures Lines(Items([a, b] + rest)) == [a + ";", b + ";"] + Lines(Items(rest))
  {
    hide Lines, Items;
    ItemsCons(b, rest);
    ItemsCons(a, [b] + rest);
    assert [a] + ([b] + rest) == [a, b] + rest;
  }

  method SpecOf(t: Table, col: string) returns (spec: string)
    ensures spec == ColumnSpec(t, col)
  {
    hide ColumnType;
    spec := col + " " + ColumnType(t, col);
    if Some(col) == t.primaryKey {
      spec := spec + " PRIMARY KEY";
    } else if col in t.uniques {
      spec := spec + " UNIQUE";
    } else {
      assert spec + "" == spec;
    }
    if col in t.indexes && col !in t.uniques {
      spec := spec + " INDEX";
    } else {
      assert spec + "" == spec;
    }
  }

  method CollectSpecs(t: Table) returns (specs: seq<string>)
    ensures specs == ColumnSpecs(t, t.columns)
  {
    hide ColumnSpec;
    specs := [];
    var i := 0;
    while i < |t.columns|
      invariant i <= |t.columns| && specs + ColumnSpecs(t, t.columns[i..]) == ColumnSpecs(t, t.columns)
    {
      assert t.columns[i..][1..] == t.columns[i + 1..];
      var spec := SpecOf(t, t.columns[i]);
      specs := specs + [spec];
      i := i + 1;
    }
  }

  method InsertLine(t: Table, row: Row) returns (line: string)
    ensures line == InsertStatement(t, row) + ";"
  {
    hide Present, Quoted, Join;
    var rowColumns, values := RowParts(t.columns, row);
    line := "INSERT INTO " + t.name + " (" + Join(rowColumns, ", ") + ") VALUES (" + Join(values, ", ") + ")" + ";";
  }

  method RowParts(columns: seq<string>, row: Row) returns (rowColumns: seq<string>, values: seq<string>)
    ensures rowColumns == Present(columns, row) && values == Quoted(columns, row)
  {
    hide QuoteValue;
    rowColumns, values := [], [];
    var i := 0;
    while i < |columns|
      invariant i <= |columns|
      invariant rowColumns + Present(columns[i..], row) == Present(columns, row)
      invariant values + Quoted(columns[i..], row) == Quoted(columns, row)
    {
      assert columns[i..][1..] == columns[i + 1..];
      if columns[i] in row {
        rowColumns := rowColumns + [columns[i]];
        values := values + [QuoteValue(row[columns[i]])];
      }
      i := i + 1;
    }
  }

  lemma {:induction false} LinesOfItems(a: seq<Item>, b: seq<Item>)
    ensures Lines(a + b) == Lines(a) + Lines(b)
    decreases |a|
  {
    if a == [] {
      assert a + b == b;
    } else {
      assert (a + b)[1..] == a[1..] + b;
      LinesOfItems(a[1..], b);
    }
  }

  lemma {:induction false} TablesSnoc(tables: seq<Table>, t: Table)
    ensures TablesItems(tables + [t]) == TablesItems(tables) + (Items(TableStatements(t)) + [None])
    decreases |tables|
  {
    hide TableStatements, Items;
    if tables == [] {
      assert tables + [t] == [t];
    } else {
      assert (tables + [t])[1..] == tables[1..] + [t];
      TablesSnoc(tables[1..], t);
    }
  }

  lemma PreambleLines(db: string)
    ensures Lines(Preamble(db)) == ["CREATE DATABASE " + db + ";", "USE " + db + ";", ""]
    ensures Lines([None]) == [""] && TablesItems([]) == []
  {
    var items := Preamble(db);
    assert items[1..] == [Some("USE " + db), None] && items[1..][1..] == [None] && items[1..][1..][1..] == [];
    assert Lines([None]) == [""];
    assert Lines(items[1..]) == ["USE " + db + ";"] + Lines([None]);
  }

  /** `_export_database`. */
  method ExportDatabase(db: string, tables: seq<Table>) returns (text: Option<string>)
    ensures text == DatabaseDump(db, tables)
  {
    hide Lines, Items, TableStatements, TablesItems, Preamble, Join;
    if tables == [] {
      return None;
    }
    var lines := [DatabaseHeader(db), "CREATE DATABASE " + db + ";", "USE " + db + ";", ""];
    PreambleLines(db);
    assert lines == [DatabaseHeader(db)] + Lines(Preamble(db));
    ghost var done := Preamble(db);
    assert tables[..0] == [] && Preamble(db) + [] == Preamble(db);
    var i := 0;
    while i < |tables|
      invariant i <= |tables|
      invariant done == Preamble(db) + TablesItems(tables[..i])
      invariant lines == [DatabaseHeader(db)] + Lines(done)
    {
      ghost var own := Items(TableStatements(tables[i]));
      var tableLines := DumpTable(tables[i]);
      TablesSnoc(tables[..i], tables[i]);
      assert tables[..i + 1] == tables[..i] + [tables[i]];
      LinesOfItems(own, [None]);
      LinesOfItems(done, own + [None]);
      lines := lines + tableLines + [""];
      done := done + (own + [None]);
      i := i + 1;
    }
    assert tables[..i] == tables;
    return Some(Join(lines, "\n"));
  }

  /** `_export_table`. */
  method ExportTable(db: string, t: Table) returns (text: string)
    ensures text == TableDump(db, t)
  {
    hide Lines, Items, TableStatements, Preamble, Join;
    var lines := [TableHeader(db, t), "CREATE DATABASE " + db + ";", "USE " + db + ";", ""];
    PreambleLines(db);
    var tableLines := DumpTable(t);
    LinesOfItems(Preamble(db), Items(TableStatements(t)));
    text := Join(lines + tableLines, "\n");
    assert lines + tableLines == [TableHeader(db, t)] + Lines(Preamble(db) + Items(TableStatements(t)));
  }
}
