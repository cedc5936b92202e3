/** Splitting a dump gives back the dumped statements, exactly when no block
    comment can be read in it and its names leave each statement in one piece. */
module SqlRoundTrip {
  import opened Wrappers
  import opened SqlSplit
  import opened SqlDump
  import opened SqlPieces
  import DbTypes

  // ---- Text that is one token to the splitter ----

  /** No quotes, semicolons or hash signs, and no two dashes in a row. */
  predicate Bare(t: string) {
    forall i :: 0 <= i < |t| ==> t[i] !in "'\";#" && !Pair(t, i, '-', '-')
  }

  lemma {:induction false} BareIsSafe(t: string)
    requires Bare(t)
    ensures Safe(t)
    decreases |t|
  {
    if t != [] {
      assert t[0] !in "'\";#" && !Pair(t, 0, '-', '-');
      forall i | 0 <= i < |t[1..]| ensures t[1..][i] !in "'\";#" && !Pair(t[1..], i, '-', '-') {
        assert t[i + 1] !in "'\";#" && !Pair(t, i + 1, '-', '-');
      }
      BareIsSafe(t[1..]);
    }
  }

  lemma SafeConcat(a: string, b: string)
    requires Safe(a) && Safe(b) && NoDashSeam(a, b)
    ensures Safe(a + b)
  {
    hide Tame, After;
    TameConcat(a, b, Start);
    AfterConcat(Start, a, b);
  }

  /** Escaped text stays inside its quotes, whatever it contains, and the closing quote closes it. */
  lemma {:induction false} UnitsStayQuoted(s: string, lines: bool)
    ensures var inside := Lex(Some('\''), false);
            Tame(Units(s, lines) + "'", inside) && After(inside, Units(s, lines) + "'") == Start
    decreases |s|
  {
    var inside := Lex(Some('\''), false);
    if s == [] {
      assert Units(s, lines) + "'" == "'";
    } else {
      var u, rest := Unit(s[0], lines), Units(s[1..], lines) + "'";
      UnitsStayQuoted(s[1..], lines);
      var t := u + rest;
      assert Units(s, lines) + "'" == t;
      if |u| == 1 {
        assert t[1..] == rest && t[0] == u[0];
      } else {
        assert t[0] == u[0] && t[1..][0] == u[1] && t[1..][1..] == rest;
      }
    }
  }

  predicate PlainValue(v: Value) {
    v.Number? ==> Bare(v.text)
  }

  /** No string, whatever its quotes, backslashes, semicolons, dashes or newlines, ends a statement early. */
  lemma QuotedIsSafe(v: Value)
    requires PlainValue(v)
    ensures Safe(QuoteValue(v))
  {
    hide Units, EscapeText, EscapeJson, Bare;
    match v {
      case Null => LooseIsSafe("NULL");
      case Number(text) => BareIsSafe(text);
      case Text(s) => EscapeIsUnits(s); InQuotes(s, true);
      case Json(s) => EscapeIsUnits(s); InQuotes(s, false);
    }
  }

  lemma InQuotes(s: string, lines: bool)
    ensures Safe("'" + Units(s, lines) + "'")
  {
    hide Units;
    UnitsStayQuoted(s, lines);
    var t := "'" + Units(s, lines) + "'";
    assert t[0] == '\'' && t[1..] == Units(s, lines) + "'";
  }

  /** No quotes, semicolons, hash signs or dashes at all. */
  predicate Loose(t: string) {
    forall i :: 0 <= i < |t| ==> t[i] !in "'\";#-"
  }

  lemma LooseIsSafe(t: string)
    requires Loose(t)
    ensures Safe(t)
  {
    hide Safe;
    LooseIsBare(t);
    BareIsSafe(t);
  }

  lemma LooseIsBare(t: string)
    requires Loose(t)
    ensures Bare(t)
  {
    forall i | 0 <= i < |t| ensures t[i] !in "'\";#" && !Pair(t, i, '-', '-') {
      assert t[i] !in "'\";#-";
    }
  }

  /** Text without dashes keeps the dashes of bare text apart. */
  lemma Framed(left: string, x: string, right: string)
    requires Loose(left) && Bare(x) && Loose(right)
    ensures Bare(left + x + right)
  {
    var t := left + x + right;
    forall i | 0 <= i < |t| ensures t[i] !in "'\";#" && !Pair(t, i, '-', '-') {
      if i < |left| {
        assert left[i] !in "'\";#-";
      } else if i < |left| + |x| {
        assert x[i - |left|] !in "'\";#" && !Pair(x, i - |left|, '-', '-');
        if i + 1 == |left| + |x| && i + 1 < |t| {
          assert t[i + 1] == right[0] && right[0] !in "'\";#-";
        }
      } else {
        assert right[i - |left| - |x|] !in "'\";#-";
      }
    }
  }

  lemma BareSeparated(a: string, mid: string, b: string)
    requires Bare(a) && Bare(b) && Loose(mid) && mid != []
    ensures Bare(a + mid + b)
  {
    var t := a + mid + b;
    forall i | 0 <= i < |t| ensures t[i] !in "'\";#" && !Pair(t, i, '-', '-') {
      if i < |a| {
        assert a[i] !in "'\";#" && !Pair(a, i, '-', '-');
        assert t[|a|] == mid[0] && mid[0] !in "'\";#-";
      } else if i < |a| + |mid| {
        assert mid[i - |a|] !in "'\";#-";
      } else {
        assert b[i - |a| - |mid|] !in "'\";#" && !Pair(b, i - |a| - |mid|, '-', '-');
      }
    }
  }

  // ---- The dumped statements ----

  /** The dump writes names as they are: nothing in them may end a statement or open a quote or a
      line comment, and no white space at the ends, where the splitter strips it. */
  predicate Name(x: string) {
    x != [] && Bare(x) && Trimmed(x)
  }

  predicate Dumpable(t: Table) {
    && Name(t.name)
    && (forall col :: col in t.columns ==> Bare(col) && Bare(ColumnType(t, col)))
    && (forall row, col :: row in t.rows && col in t.columns && col in row ==> PlainValue(row[col]))
  }

  lemma {:induction false} BareJoin(parts: seq<string>)
    requires forall i :: 0 <= i < |parts| ==> Bare(parts[i])
    ensures Bare(Join(parts, ", "))
    decreases |parts|
  {
    hide Bare;
    if parts == [] {
      assert Bare([]) by { EmptyBare(); }
    } else if |parts| > 1 {
      BareJoin(parts[1..]);
      BareSeparated(parts[0], ", ", Join(parts[1..], ", "));
    }
  }

  lemma EmptyBare()
    ensures Bare([])
  {
  }

  lemma {:induction false} DecimalLoose(n: nat)
    ensures Loose(DbTypes.Decimal(n)) && Trimmed(DbTypes.Decimal(n))
    decreases n
  {
    if n >= 10 {
      DecimalLoose(n / 10);
    }
  }

  lemma SpecBare(t: Table, col: string)
    requires Dumpable(t) && col in t.columns
    ensures Bare(ColumnSpec(t, col))
  {
    hide ColumnType, IsSpace, Bare;
    var type_ := ColumnType(t, col);
    BareSeparated(col, " ", type_);
    var rest := (if Some(col) == t.primaryKey then " PRIMARY KEY" else if col in t.uniques then " UNIQUE" else "")
              + (if col in t.indexes && col !in t.uniques then " INDEX" else "");
    Framed("", col + " " + type_, rest);
    assert "" + (col + " " + type_) + rest == ColumnSpec(t, col);
  }

  lemma {:induction false} SpecsBare(t: Table, columns: seq<string>)
    requires Dumpable(t) && forall col :: col in columns ==> col in t.columns
    ensures forall i :: 0 <= i < |ColumnSpecs(t, columns)| ==> Bare(ColumnSpecs(t, columns)[i])
    decreases |columns|
  {
    hide Bare, Dumpable, ColumnSpec;
    if columns != [] {
      SpecBare(t, columns[0]);
      SpecsBare(t, columns[1..]);
    }
  }

  lemma {:induction false} PresentBare(t: Table, columns: seq<string>, row: Row)
    requires Dumpable(t) && forall col :: col in columns ==> col in t.columns
    ensures forall i :: 0 <= i < |Present(columns, row)| ==> Bare(Present(columns, row)[i])
    decreases |columns|
  {
    hide Bare, Name;
    if columns != [] {
      PresentBare(t, columns[1..], row);
    }
  }

  /** A value list is safe: the separators keep dashes apart. */
  lemma {:induction false} ValuesSafe(t: Table, columns: seq<string>, row: Row)
    requires Dumpable(t) && row in t.rows && forall col :: col in columns ==> col in t.columns
    ensures forall i :: 0 <= i < |Quoted(columns, row)| ==> Safe(Quoted(columns, row)[i])
    decreases |columns|
  {
    hide Safe, Name, QuoteValue, Bare;
    if columns != [] {
      if columns[0] in row {
        QuotedIsSafe(row[columns[0]]);
      }
      ValuesSafe(t, columns[1..], row);
    }
  }

  lemma {:induction false} SafeJoin(parts: seq<string>)
    requires forall i :: 0 <= i < |parts| ==> Safe(parts[i])
    ensures Safe(Join(parts, ", "))
    decreases |parts|
  {
    hide Safe;
    if parts == [] {
      EmptySafe();
    } else if |parts| > 1 {
      SafeJoin(parts[1..]);
      LooseIsSafe(", ");
      SafeConcat(parts[0], ", ");
      SafeConcat(parts[0] + ", ", Join(parts[1..], ", "));
    }
  }

  lemma EmptySafe()
    ensures Safe([])
  {
  }

  lemma InsertGood(t: Table, row: Row)
    requires Dumpable(t) && row in t.rows
    ensures Good(InsertStatement(t, row))
  {
    hide Safe, Join, Present, Quoted, Dumpable, Bare, IsSpace;
    var columns, values := Join(Present(t.columns, row), ", "), Join(Quoted(t.columns, row), ", ");
    PresentBare(t, t.columns, row);
    BareJoin(Present(t.columns, row));
    ValuesSafe(t, t.columns, row);
    SafeJoin(Quoted(t.columns, row));
    var head := "INSERT INTO " + t.name + " (" + columns + ") VALUES (";
    HeadBare(t, columns);
    BareIsSafe(head);
    SafeConcat(head, values);
    CloseSafe();
    SafeConcat(head + values, ")");
    assert InsertStatement(t, row) == head + values + ")";
    assert InsertStatement(t, row)[0] == 'I';
    LettersTrimmed();
  }

  lemma CloseSafe()
    ensures Safe(")")
  {
    LooseIsSafe(")");
  }

  lemma LettersTrimmed()
    ensures !IsSpace('I') && !IsSpace('D') && !IsSpace('C') && !IsSpace('S') && !IsSpace('U') && !IsSpace(')')
  {
  }

  lemma HeadBare(t: Table, columns: string)
    requires Dumpable(t) && Bare(columns)
    ensures Bare("INSERT INTO " + t.name + " (" + columns + ") VALUES (")
  {
    hide Bare;
    BareSeparated(t.name, " (", columns);
    Framed("INSERT INTO ", t.name + " (" + columns, ") VALUES (");
    assert "INSERT INTO " + (t.name + " (" + columns) + ") VALUES ("
           == "INSERT INTO " + t.name + " (" + columns + ") VALUES (";
  }

  /** Fixed words around a name make a statement. */
  lemma FramedGood(left: string, x: string, right: string)
    requires Loose(left) && Bare(x) && Loose(right) && left != [] && !IsSpace(left[0])
    requires if right == [] then Trimmed(x) && x != [] else !IsSpace(right[|right| - 1])
    ensures Good(left + x + right)
  {
    hide Safe, IsSpace, Bare, Loose;
    var s := left + x + right;
    Framed(left, x, right);
    BareIsSafe(s);
    assert s[|s| - 1] == if right == [] then x[|x| - 1] else right[|right| - 1];
  }

  lemma DropGood(name: string)
    requires Name(name)
    ensures Good("DROP TABLE IF EXISTS " + name)
  {
    hide Good, IsSpace, Bare;
    LettersTrimmed();
    FramedGood("DROP TABLE IF EXISTS ", name, "");
    assert "DROP TABLE IF EXISTS " + name + "" == "DROP TABLE IF EXISTS " + name;
  }

  lemma CreateGood(name: string, specs: string)
    requires Name(name) && Bare(specs)
    ensures Good("CREATE TABLE " + name + " (" + specs + ")")
  {
    hide Good, IsSpace, Bare;
    LettersTrimmed();
    BareSeparated(name, " (", specs);
    FramedGood("CREATE TABLE ", name + " (" + specs, ")");
    assert "CREATE TABLE " + (name + " (" + specs) + ")" == "CREATE TABLE " + name + " (" + specs + ")";
  }

  lemma SetGood(name: string, n: nat)
    requires Name(name)
    ensures Good("SET TABLE " + name + " next_id " + DbTypes.Decimal(n))
  {
    hide Good, IsSpace, Bare, DbTypes.Decimal;
    LettersTrimmed();
    DecimalLoose(n);
    FramedGood("SET TABLE ", name, " next_id " + DbTypes.Decimal(n));
    assert "SET TABLE " + name + (" next_id " + DbTypes.Decimal(n))
           == "SET TABLE " + name + " next_id " + DbTypes.Decimal(n);
  }

  lemma DatabaseGood(name: string)
    requires Name(name)
    ensures Good("CREATE DATABASE " + name) && Good("USE " + name)
  {
    hide Good, IsSpace, Bare;
    LettersTrimmed();
    FramedGood("CREATE DATABASE ", name, "");
    FramedGood("USE ", name, "");
    assert "CREATE DATABASE " + name + "" == "CREATE DATABASE " + name && "USE " + name + "" == "USE " + name;
  }

  lemma {:induction false} InsertsGood(t: Table, rows: seq<Row>)
    requires Dumpable(t) && forall row :: row in rows ==> row in t.rows
    ensures AllGood(InsertStatements(t, rows))
    decreases |rows|
  {
    hide Good, Dumpable, InsertStatement;
    if rows != [] {
      InsertGood(t, rows[0]);
      InsertsGood(t, rows[1..]);
    }
  }

  lemma TableGood(t: Table)
    requires Dumpable(t)
    ensures AllGood(TableStatements(t))
  {
    hide Good, Bare, Name, Join, ColumnSpecs, InsertStatements, DbTypes.Decimal;
    DropGood(t.name);
    SpecsBare(t, t.columns);
    BareJoin(ColumnSpecs(t, t.columns));
    CreateGood(t.name, Join(ColumnSpecs(t, t.columns), ", "));
    SetGood(t.name, t.nextId);
    InsertsGood(t, t.rows);
  }

  // ---- The two exports ----

  /** All statements of the tables, in order. */
  function TablesStatements(tables: seq<Table>): seq<string> {
    if tables == [] then [] else TableStatements(tables[0]) + TablesStatements(tables[1..])
  }

  lemma {:induction false} StatementsConcat(a: seq<Item>, b: seq<Item>)
    ensures Statements(a + b) == Statements(a) + Statements(b)
    decreases |a|
  {
    if a == [] {
      assert a + b == b;
    } else {
      assert (a + b)[1..] == a[1..] + b;
      StatementsConcat(a[1..], b);
    }
  }

  lemma {:induction false} TablesSplit(tables: seq<Table>)
    ensures Statements(TablesItems(tables)) == TablesStatements(tables)
    decreases |tables|
  {
    hide TableStatements, Items, Statements;
    NoStatements();
    if tables != [] {
      var own := Items(TableStatements(tables[0]));
      ItemsStatements(TableStatements(tables[0]));
      TablesSplit(tables[1..]);
      StatementsConcat(own + [None], TablesItems(tables[1..]));
      StatementsConcat(own, [None]);
      assert TableStatements(tables[0]) + [] == TableStatements(tables[0]);
    }
  }

  lemma {:induction false} TablesGood(tables: seq<Table>)
    requires forall t :: t in tables ==> Dumpable(t)
    ensures AllGood(TablesStatements(tables))
    decreases |tables|
  {
    hide Good, Dumpable, TableStatements;
    if tables != [] {
      TableGood(tables[0]);
      TablesGood(tables[1..]);
      AllGoodConcat(TableStatements(tables[0]), TablesStatements(tables[1..]));
    }
  }

  lemma NoStatements()
    ensures Statements([]) == [] && Statements([None]) == []
  {
  }

  function Opening(db: string): seq<string> {
    ["CREATE DATABASE " + db, "USE " + db]
  }

  lemma PreambleStatements(db: string)
    ensures Statements(Preamble(db)) == Opening(db)
  {
    var items := Preamble(db);
    assert items[1..][1..] == [None] && items[1..] == [Some("USE " + db), None];
    assert Statements([None]) == [];
  }

  /** Characters of a header outside its own quotes. */
  predicate Plain(t: string) {
    forall i :: 0 <= i < |t| ==> t[i] !in "'\";\\\n"
  }

  /** A name in the dump's first line, which is also in reach of its quotes and of block comments. */
  predicate Heading(x: string) {
    Name(x) && Unopened(x) && '\\' !in x && '\n' !in x
  }

  lemma HeadingIsPlain(x: string)
    requires Heading(x)
    ensures Plain(x)
  {
  }

  /** Text without quotes, backslashes or semicolons leaves the scanner where it was. */
  lemma {:induction false} PlainUncut(t: string, st: Lex)
    requires !st.escape && (st.quote.None? || st.quote == Some('\'')) && Plain(t)
    ensures Uncut(t, st) && After(st, t) == st
    decreases |t|
  {
    if t != [] {
      assert t[0] !in "'\";\\\n";
      assert Step(st, t[0]) == st;
      forall i | 0 <= i < |t[1..]| ensures t[1..][i] !in "'\";\\\n" {
        assert t[i + 1] !in "'\";\\\n";
      }
      PlainUncut(t[1..], st);
    }
  }

  lemma TableHeaderOk(db: string, t: Table)
    requires Heading(db) && Heading(t.name)
    ensures Header(TableHeader(db, t))
  {
    hide Uncut, After, Name, Unopened;
    var h := TableHeader(db, t);
    HeadingIsPlain(db);
    HeadingIsPlain(t.name);
    assert Plain(h);
    PlainUncut(h, Start);
    UnopenedSeparated("", "-- KosDB dump of ", db) by { NothingUnopened(); }
    UnopenedSeparated("" + "-- KosDB dump of " + db, ".", t.name);
    assert "" + "-- KosDB dump of " + db + "." + t.name == h;
    assert h[0] == '-' && h[1] == '-';
    NoNewline(h);
  }

  lemma NothingUnopened()
    ensures Unopened("")
  {
  }

  lemma NoNewline(h: string)
    requires Plain(h)
    ensures '\n' !in h
  {
  }

  lemma DatabaseHeaderOk(db: string)
    requires Heading(db)
    ensures Header(DatabaseHeader(db))
  {
    hide Uncut, After, Name, Unopened;
    var h, a, b := DatabaseHeader(db), "-- KosDB dump of database ", "'" + (db + "'");
    HeadingIsPlain(db);
    assert Plain(a);
    assert h == a + b;
    QuotedUncut(db);
    HeaderNoNewline(a, db);
    NothingUnopened();
    UnopenedSeparated("", a + "'", db);
    UnopenedSeparated("" + (a + "'") + db, "'", "");
    assert "" + (a + "'") + db + "'" + "" == h;
    PlainUncut(a, Start);
    UncutConcat(a, b, Start);
    AfterConcat(Start, a, b);
    assert a[0] == '-' && a[1] == '-';
  }

  lemma HeaderNoNewline(a: string, db: string)
    requires Plain(a) && Plain(db)
    ensures '\n' !in a + ("'" + (db + "'"))
  {
  }

  lemma QuotedUncut(db: string)
    requires Plain(db)
    ensures Uncut("'" + (db + "'"), Start) && After(Start, "'" + (db + "'")) == Start
  {
    hide Uncut, After, Plain;
    var inside := Lex(Some('\''), false);
    QuoteToggles();
    PlainUncut(db, inside);
    UncutConcat(db, "'", inside);
    AfterConcat(inside, db, "'");
    UncutConcat("'", db + "'", Start);
    AfterConcat(Start, "'", db + "'");
  }

  lemma QuoteToggles()
    ensures Uncut("'", Start) && After(Start, "'") == Lex(Some('\''), false)
    ensures Uncut("'", Lex(Some('\''), false)) && After(Lex(Some('\''), false), "'") == Start
  {
    assert "'"[1..] == [];
  }

  /** Splitting a database dump gives back its statements if and only if no block comment can be read in it and
      every statement is good: trimmed, its quotes closed, without a semicolon or a comment outside them. */
  lemma DatabaseRoundTripIff(db: string, tables: seq<Table>)
    requires Header(DatabaseHeader(db)) && tables != []
    ensures var dump := DatabaseDump(db, tables);
            && dump.Some?
            && (Split(dump.value) == Opening(db) + TablesStatements(tables)
                <==> !HasBlockComment(dump.value) && AllGood(Opening(db) + TablesStatements(tables)))
  {
    hide Header, TablesItems, Statements, GoodItems, AllGood, HasBlockComment, Split, DumpText, Preamble;
    PreambleStatements(db);
    TablesSplit(tables);
    var items := Preamble(db) + TablesItems(tables);
    StatementsConcat(Preamble(db), TablesItems(tables));
    PreambleStarts(db);
    GoodItemsIff(items);
    RoundTripIff(DatabaseHeader(db), items);
  }

  lemma PreambleStarts(db: string)
    ensures Preamble(db) != []
  {
  }

  lemma TableRoundTripIff(db: string, t: Table)
    requires Header(TableHeader(db, t))
    ensures Split(TableDump(db, t)) == Opening(db) + TableStatements(t)
            <==> !HasBlockComment(TableDump(db, t)) && AllGood(Opening(db) + TableStatements(t))
  {
    hide Header, TableStatements, Items, Statements, GoodItems, AllGood, HasBlockComment, Split, DumpText, Preamble;
    PreambleStatements(db);
    ItemsStatements(TableStatements(t));
    var items := Preamble(db) + Items(TableStatements(t));
    StatementsConcat(Preamble(db), Items(TableStatements(t)));
    PreambleStarts(db);
    GoodItemsIff(items);
    RoundTripIff(TableHeader(db, t), items);
  }

  /** Which names are good enough: whatever the string and JSON values, only a block comment is then in the way. */
  lemma PlainNamesAreGood(db: string, tables: seq<Table>)
    requires Heading(db) && forall t :: t in tables ==> Dumpable(t)
    ensures Header(DatabaseHeader(db)) && AllGood(Opening(db) + TablesStatements(tables))
    ensures forall t :: t in tables && Heading(t.name) ==>
              Header(TableHeader(db, t)) && AllGood(Opening(db) + TableStatements(t))
  {
    hide Good, Header, Bare, Trimmed, Unopened, Dumpable, TableStatements;
    DatabaseHeaderOk(db);
    DatabaseGood(db);
    TablesGood(tables);
    AllGoodConcat(Opening(db), TablesStatements(tables));
    forall t | t in tables && Heading(t.name)
      ensures Header(TableHeader(db, t)) && AllGood(Opening(db) + TableStatements(t))
    {
      TableHeaderOk(db, t);
      TableGood(t);
      AllGoodConcat(Opening(db), TableStatements(t));
    }
  }

  // ---- A value that does not survive ----

  lemma BlockWithin(a: string, s: string, b: string)
    requires HasBlockComment(s)
    ensures HasBlockComment(a + s + b)
  {
    var i: nat, j: nat :| i + 2 <= j && Pair(s, i, '/', '*') && Pair(s, j, '*', '/');
    assert Pair(a + s + b, |a| + i, '/', '*') && Pair(a + s + b, |a| + j, '*', '/');
  }

  lemma {:induction false} StatementWithin(items: seq<Item>, k: nat) returns (a: string, b: string)
    requires k < |items| && items[k].Some?
    ensures Body(items) == a + items[k].value + b
    decreases k
  {
    hide Body;
    BodyUnfolds(items);
    var rest := if |items| == 1 then "" else "\n" + Body(items[1..]);
    var line := if items[0].Some? then items[0].value + ";" else "";
    if k == 0 {
      a, b := "", ";" + rest;
    } else {
      a, b := StatementWithin(items[1..], k - 1);
      assert line + ("\n" + (a + items[k].value + b)) == line + "\n" + a + items[k].value + b;
      a := line + "\n" + a;
    }
  }

  /** A statement with a block comment in it is enough to spoil the dump it is in. */
  lemma CommentSpoils(header: string, items: seq<Item>, k: nat)
    requires k < |items| && items[k].Some? && HasBlockComment(items[k].value)
    ensures HasBlockComment(DumpText(header, items))
  {
    hide HasBlockComment, Body;
    var a, b := StatementWithin(items, k);
    BlockWithin(header + "\n" + a, items[k].value, b);
    DumpIsHeaderAndBody(header, items);
    assert header + "\n" + (a + items[k].value + b) == header + "\n" + a + items[k].value + b;
  }

  lemma {:induction false} PartWithin(parts: seq<string>, k: nat) returns (a: string, b: string)
    requires k < |parts|
    ensures Join(parts, ", ") == a + parts[k] + b
    decreases k
  {
    var rest := if |parts| == 1 then "" else ", " + Join(parts[1..], ", ");
    assert Join(parts, ", ") == parts[0] + rest;
    if k == 0 {
      a, b := "", rest;
    } else {
      a, b := PartWithin(parts[1..], k - 1);
      assert parts[0] + (", " + (a + parts[k] + b)) == parts[0] + ", " + a + parts[k] + b;
      a := parts[0] + ", " + a;
    }
  }

  lemma {:induction false} QuotedHas(columns: seq<string>, row: Row, col: string) returns (k: nat)
    requires col in columns && col in row
    ensures k < |Quoted(columns, row)| && Quoted(columns, row)[k] == QuoteValue(row[col])
    decreases |columns|
  {
    hide QuoteValue;
    if columns[0] == col {
      k := 0;
    } else {
      k := QuotedHas(columns[1..], row, col);
      k := k + if columns[0] in row then 1 else 0;
    }
  }

  lemma ValueWithinInsert(t: Table, row: Row, col: string)
    requires col in t.columns && col in row && HasBlockComment(QuoteValue(row[col]))
    ensures HasBlockComment(InsertStatement(t, row))
  {
    hide HasBlockComment, QuoteValue, Quoted, Present, Join;
    var k := QuotedHas(t.columns, row, col);
    var a, b := PartWithin(Quoted(t.columns, row), k);
    BlockWithin(a, QuoteValue(row[col]), b);
    BlockWithin("INSERT INTO " + t.name + " (" + Join(Present(t.columns, row), ", ") + ") VALUES (",
                Join(Quoted(t.columns, row), ", "), ")");
  }

  lemma {:induction false} InsertAt(t: Table, rows: seq<Row>, r: nat)
    requires r < |rows|
    ensures |InsertStatements(t, rows)| == |rows| && InsertStatements(t, rows)[r] == InsertStatement(t, rows[r])
    decreases |rows|
  {
    hide InsertStatement;
    if r > 0 {
      InsertAt(t, rows[1..], r - 1);
    } else if |rows| > 1 {
      InsertAt(t, rows[1..], 0);
    }
  }

  lemma StatementAt(t: Table, r: nat) returns (k: nat)
    requires r < |t.rows|
    ensures k < |TableStatements(t)| && TableStatements(t)[k] == InsertStatement(t, t.rows[r])
  {
    hide InsertStatement, InsertStatements, ColumnSpecs, Join, DbTypes.Decimal;
    InsertAt(t, t.rows, r);
    k := (if SetsNextId(t) then 3 else 2) + r;
  }

  lemma {:induction false} ItemAt(statements: seq<string>, k: nat)
    requires k < |statements|
    ensures |Items(statements)| == |statements| && Items(statements)[k] == Some(statements[k])
    decreases |statements|
  {
    if k > 0 {
      ItemAt(statements[1..], k - 1);
    } else if |statements| > 1 {
      ItemAt(statements[1..], 0);
    }
  }

  lemma {:induction false} UnitsConcat(a: string, b: string)
    ensures Units(a + b, true) == Units(a, true) + Units(b, true)
    decreases |a|
  {
    hide Unit;
    if a == [] {
      assert a + b == b;
    } else {
      UnitsConcat(a[1..], b);
      assert (a + b)[1..] == a[1..] + b;
    }
  }

  lemma MarksAreUnits()
    ensures Units("/*", true) == "/*" && Units("*/", true) == "*/"
  {
    assert "/*"[1..] == "*" && "*/"[1..] == "/" && "*"[1..] == [] && "/"[1..] == [];
  }

  /** Quoting does not break up a block comment inside a string. */
  lemma QuotingKeepsComment(s: string)
    requires HasBlockComment(s)
    ensures HasBlockComment(QuoteValue(Text(s)))
  {
    hide Units, EscapeText;
    var i: nat, j: nat :| i + 2 <= j && Pair(s, i, '/', '*') && Pair(s, j, '*', '/');
    var a, m, b := s[..i], s[i + 2..j], s[j + 2..];
    assert s == a + ("/*" + (m + ("*/" + b)));
    MarksAreUnits();
    UnitsConcat(a, "/*" + (m + ("*/" + b)));
    UnitsConcat("/*", m + ("*/" + b));
    UnitsConcat(m, "*/" + b);
    UnitsConcat("*/", b);
    var u := Units(m, true);
    var core := "/*" + u + "*/";
    assert Pair(core, 0, '/', '*') && Pair(core, |u| + 2, '*', '/');
    BlockWithin(Units(a, true), core, Units(b, true));
    EscapeIsUnits(s);
    assert EscapeText(s) == Units(a, true) + core + Units(b, true);
    BlockWithin("'", EscapeText(s), "'");
  }

  /** A string value that holds a block comment never comes back, in whatever table it is stored. */
  lemma CommentInValueIsLost(db: string, t: Table, r: nat, col: string)
    requires Header(TableHeader(db, t)) && r < |t.rows| && col in t.columns && col in t.rows[r]
    requires t.rows[r][col].Text? && HasBlockComment(t.rows[r][col].s)
    ensures Split(TableDump(db, t)) != Opening(db) + TableStatements(t)
  {
    hide HasBlockComment, Split, InsertStatement, TableStatements, Header, AllGood, QuoteValue, DumpText, Items;
    QuotingKeepsComment(t.rows[r][col].s);
    ValueWithinInsert(t, t.rows[r], col);
    var k := StatementAt(t, r);
    ItemAt(TableStatements(t), k);
    CommentSpoils(TableHeader(db, t), Preamble(db) + Items(TableStatements(t)), k + 3);
    TableRoundTripIff(db, t);
  }

  const Spoiled := Table("t", ["c"], map[], None, {}, {}, 1, [map["c" := Text("/**/")]])

  /** For instance. */
  lemma SpoiledIsLost()
    ensures Split(TableDump("d", Spoiled)) != ["CREATE DATABASE d", "USE d"] + TableStatements(Spoiled)
  {
    hide Split, TableDump, TableStatements, Header;
    assert Heading("d") && Heading("t");
    TableHeaderOk("d", Spoiled);
    assert Pair("/**/", 0, '/', '*') && Pair("/**/", 2, '*', '/');
    assert HasBlockComment("/**/");
    assert "CREATE DATABASE " + "d" == "CREATE DATABASE d" && "USE " + "d" == "USE d";
    CommentInValueIsLost("d", Spoiled, 0, "c");
  }

  /** Names are not quoted: a table with a semicolon in its name never comes back. */
  lemma SemicolonInNameIsLost(db: string, tables: seq<Table>, k: nat, a: string, b: string)
    requires Header(DatabaseHeader(db)) && k < |tables| && tables[k].name == a + ";" + b && Bare(a)
    ensures Split(DatabaseDump(db, tables).value) != Opening(db) + TablesStatements(tables)
  {
    hide Split, Header, DatabaseDump, HasBlockComment, Bare, Good, TableStatements, AllGood;
    DatabaseRoundTripIff(db, tables);
    DropIsBroken(tables[k], a, b);
    AllGoodConcat(Opening(db), TablesStatements(tables));
    if AllGood(TablesStatements(tables)) {
      OneTableGood(tables, k);
    }
  }

  lemma DropIsBroken(t: Table, a: string, b: string)
    requires t.name == a + ";" + b && Bare(a)
    ensures !AllGood(TableStatements(t))
  {
    hide Good, Bare, InsertStatements, ColumnSpecs, Join, DbTypes.Decimal;
    var drop := "DROP TABLE IF EXISTS " + a;
    Framed("DROP TABLE IF EXISTS ", a, "");
    assert drop + "" == drop;
    SemicolonIsNotGood(drop, b);
    assert TableStatements(t)[0] == drop + ";" + b;
  }

  lemma {:induction false} OneTableGood(tables: seq<Table>, k: nat)
    requires k < |tables| && AllGood(TablesStatements(tables))
    ensures AllGood(TableStatements(tables[k]))
    decreases k
  {
    hide AllGood, TableStatements;
    AllGoodConcat(TableStatements(tables[0]), TablesStatements(tables[1..]));
    if k > 0 {
      OneTableGood(tables[1..], k - 1);
    }
  }

  lemma SemicolonIsNotGood(a: string, b: string)
    requires Bare(a)
    ensures !Good(a + ";" + b)
  {
    hide Bare;
    BareIsSafe(a);
    if Tame(a + ";" + b, Start) {
      assert a + ";" + b == a + (";" + b);
      TameTail(a, ";" + b, Start);
    }
  }

  lemma {:induction false} TameTail(a: string, b: string, st: Lex)
    requires Tame(a + b, st)
    ensures Tame(b, After(st, a))
    decreases |a|
  {
    if a == [] {
      assert a + b == b;
    } else {
      assert (a + b)[1..] == a[1..] + b;
      TameTail(a[1..], b, Step(st, a[0]));
    }
  }

  // ---- What a dump holds ----

  /** A table's statements: two to make the table, the id counter if it matters, and an INSERT
      for every row in turn. */
  lemma TableHolds(t: Table) returns (first: nat)
    ensures first == if t.rows != [] && SetsNextId(t) then 3 else 2
    ensures var s := TableStatements(t);
            && |s| == first + |t.rows|
            && s[0] == "DROP TABLE IF EXISTS " + t.name
            && s[1] == "CREATE TABLE " + t.name + " (" + Join(ColumnSpecs(t, t.columns), ", ") + ")"
            && (first == 3 ==> s[2] == "SET TABLE " + t.name + " next_id " + DbTypes.Decimal(t.nextId))
    ensures forall i :: 0 <= i < |t.rows| ==> TableStatements(t)[first + i] == InsertStatement(t, t.rows[i])
  {
    hide InsertStatement, InsertStatements, Join, ColumnSpecs, DbTypes.Decimal, SetsNextId;
    first := if t.rows != [] && SetsNextId(t) then 3 else 2;
    InsertOfEach(t, t.rows);
  }

  lemma {:induction false} InsertOfEach(t: Table, rows: seq<Row>)
    ensures |InsertStatements(t, rows)| == |rows|
    ensures forall i :: 0 <= i < |rows| ==> InsertStatements(t, rows)[i] == InsertStatement(t, rows[i])
  {
    hide InsertStatement;
    if rows != [] {
      InsertOfEach(t, rows[1..]);
    }
  }

  /** A database's tables are dumped one behind the other. */
  lemma {:induction false} TablesInOrder(tables: seq<Table>, i: nat)
    requires i < |tables|
    ensures TablesStatements(tables)
            == TablesStatements(tables[..i]) + TableStatements(tables[i]) + TablesStatements(tables[i + 1..])
  {
    hide TableStatements;
    if i > 0 {
      TablesInOrder(tables[1..], i - 1);
      assert tables[..i][1..] == tables[1..][..i - 1];
      assert tables[1..][i..] == tables[i + 1..];
    }
  }
}
