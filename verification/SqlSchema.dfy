/** Reading a dumped CREATE TABLE back: exactly which columns keep their name, type
    and marks. */
module SqlSchema {
  import opened Wrappers
  import opened SqlSplit
  import opened SqlDump

  /** Python's `upper`, character by character. */
  type Upper = char -> string

  function Uppered(upper: Upper, s: string): string {
    if s == [] then [] else upper(s[0]) + Uppered(upper, s[1..])
  }

  /** It leaves capital letters and the blank alone and makes no other blanks. */
  ghost predicate UpperOk(upper: Upper) {
    && upper(' ') == " " && (forall c :: 'A' <= c <= 'Z' ==> upper(c) == [c])
    && forall c :: c != ' ' ==> ' ' !in upper(c)
  }

  ghost predicate Contains(s: string, mark: string) {
    exists i :: Occurs(s, mark, i)
  }

  predicate Occurs(s: string, mark: string, i: int) {
    0 <= i && i + |mark| <= |s| && s[i..i + |mark|] == mark
  }

  predicate EndsWith(s: string, end: string) {
    |end| <= |s| && s[|s| - |end|..] == end
  }

  datatype Column = Column(name: string, kind: string, primary: bool, unique: bool, index: bool)

  const KeyMark := "PRIMARY KEY"
  const KeyFirst := "PRIMARY"
  const KeySecond := "KEY"
  const UniqueMark := "UNIQUE"
  const IndexMark := "INDEX"
  const KeyIndexMarks := "PRIMARY KEY INDEX"

  /** One column of `create_table`: the first word is the name, the second the type, the rest marks that are looked
      for anywhere in the text. */
  ghost function ReadColumn(upper: Upper, spec: string): Column {
    var words, text := Words(spec), Uppered(upper, Strip(spec));
    var primary := Contains(text, KeyMark);
    var unique := !primary && Contains(text, UniqueMark);
    Column(if words == [] then "" else words[0],
           if |words| > 1 then Uppered(upper, words[1]) else if primary then "INTEGER" else "TEXT",
           primary, unique, !primary && (unique || Contains(text, IndexMark)))
  }

  // ---- Words and blanks ----

  lemma {:induction false} WordFirst(w: string, current: string, rest: string)
    requires IsWord(current + w)
    ensures WordsFrom(w + " " + rest, current) == [current + w] + Words(rest)
    ensures WordsFrom(w, current) == [current + w]
    decreases |w|
  {
    assert IsSpace(' ');
    hide IsSpace;
    if w == [] {
      assert w + " " + rest == " " + rest && (" " + rest)[1..] == rest && current + w == current;
    } else {
      assert (current + w)[|current|] == w[0];
      assert (w + " " + rest)[1..] == w[1..] + " " + rest && current + [w[0]] + w[1..] == current + w;
      WordFirst(w[1..], current + [w[0]], rest);
    }
  }

  lemma {:induction false} UpperedConcat(upper: Upper, a: string, b: string)
    ensures Uppered(upper, a + b) == Uppered(upper, a) + Uppered(upper, b)
    decreases |a|
  {
    if a == [] {
      assert a + b == b;
    } else {
      assert (a + b)[1..] == a[1..] + b;
      UpperedConcat(upper, a[1..], b);
    }
  }

  lemma {:induction false} UpperedCapitals(upper: Upper, s: string)
    requires UpperOk(upper) && forall i :: 0 <= i < |s| ==> 'A' <= s[i] <= 'Z' || s[i] == ' '
    ensures Uppered(upper, s) == s
    decreases |s|
  {
    if s != [] {
      UpperedCapitals(upper, s[1..]);
      assert s == [s[0]] + s[1..];
    }
  }

  lemma {:induction false} UpperedWord(upper: Upper, w: string)
    requires UpperOk(upper) && ' ' !in w
    ensures ' ' !in Uppered(upper, w)
    decreases |w|
  {
    if w != [] {
      assert w[0] in w;
      UpperedWord(upper, w[1..]);
    }
  }

  // ---- Marks ----

  lemma CharAt(s: string, mark: string, i: nat, at: nat)
    requires Occurs(s, mark, i) && i <= at < i + |mark|
    ensures s[at] == mark[at - i] && s[at] in mark
  {
    assert s[i..i + |mark|][at - i] == s[at];
  }

  lemma OccursLeft(a: string, b: string, mark: string, i: nat)
    requires i + |mark| <= |a|
    ensures Occurs(a + b, mark, i) <==> Occurs(a, mark, i)
  {
    assert (a + b)[i..i + |mark|] == a[i..i + |mark|];
  }

  lemma OccursRight(a: string, b: string, mark: string, i: nat)
    ensures Occurs(a + b, mark, |a| + i) <==> Occurs(b, mark, i)
  {
    if i + |mark| <= |b| {
      assert (a + b)[|a| + i..|a| + i + |mark|] == b[i..i + |mark|];
    }
  }

  lemma ContainsParts(a: string, b: string, mark: string)
    ensures Contains(a, mark) || Contains(b, mark) ==> Contains(a + " " + b, mark)
  {
    hide Occurs;
    assert a + " " + b == a + (" " + b);
    if i :| Occurs(a, mark, i) {
      OccursBounds(a, mark, i);
      OccursLeft(a, " " + b, mark, i);
    }
    if i :| Occurs(b, mark, i) {
      OccursBounds(b, mark, i);
      OccursRight(a + " ", b, mark, i);
    }
  }

  lemma OccursBounds(s: string, mark: string, i: int)
    requires Occurs(s, mark, i)
    ensures 0 <= i && i + |mark| <= |s|
  {
  }

  /** A mark without a blank stands on one side of a blank. */
  lemma MarkInWords(a: string, b: string, mark: string)
    requires ' ' !in mark
    ensures Contains(a + " " + b, mark) <==> Contains(a, mark) || Contains(b, mark)
  {
    hide Occurs;
    var s := a + " " + b;
    ContainsParts(a, b, mark);
    if i :| Occurs(s, mark, i) {
      OccursBounds(s, mark, i);
      if i + |mark| <= |a| {
        assert s == a + (" " + b);
        OccursLeft(a, " " + b, mark, i);
      } else if i > |a| {
        OccursRight(a + " ", b, mark, i - |a| - 1);
      } else {
        assert s[|a|] == ' ';
        CharAt(s, mark, i, |a|);
      }
    }
  }

  /** A mark of two words stands across the blank behind the first word, or further on. */
  lemma TwoWordMark(a: string, b: string, p: string, k: string)
    requires ' ' !in a && ' ' !in p
    ensures Contains(a + " " + b, p + " " + k) <==> (EndsWith(a, p) && k <= b) || Contains(b, p + " " + k)
  {
    hide Occurs, EndsWith;
    var s, mark := a + " " + b, p + " " + k;
    ContainsParts(a, b, mark);
    if i :| Occurs(s, mark, i) {
      OccursBounds(s, mark, i);
      if i > |a| {
        OccursRight(a + " ", b, mark, i - |a| - 1);
      } else if i + |p| == |a| {
        Across(a, b, p, k, i);
      } else {
        BlankMisplaced(a, b, p, k, i);
      }
    }
    if EndsWith(a, p) && k <= b {
      var i := Joined(a, b, p, k);
    }
  }

  lemma Across(a: string, b: string, p: string, k: string, i: nat)
    requires Occurs(a + " " + b, p + " " + k, i) && i + |p| == |a|
    ensures EndsWith(a, p) && k <= b
  {
    var s, mark := a + " " + b, p + " " + k;
    assert s[i..i + |mark|][..|p|] == a[i..] && mark[..|p|] == p;
    assert s[i..i + |mark|][|p| + 1..] == b[..|k|] && mark[|p| + 1..] == k;
  }

  lemma Joined(a: string, b: string, p: string, k: string) returns (i: nat)
    requires EndsWith(a, p) && k <= b
    ensures Occurs(a + " " + b, p + " " + k, i)
  {
    i := |a| - |p|;
    var s, mark := a + " " + b, p + " " + k;
    assert a == a[..i] + p && b == k + b[|k|..];
    assert s == a[..i] + mark + b[|k|..];
  }

  lemma BlankMisplaced(a: string, b: string, p: string, k: string, i: nat)
    requires ' ' !in a && ' ' !in p && i <= |a| && i + |p| != |a|
    ensures !Occurs(a + " " + b, p + " " + k, i)
  {
    hide Occurs;
    var s, mark := a + " " + b, p + " " + k;
    if Occurs(s, mark, i) {
      OccursBounds(s, mark, i);
      if i + |p| < |a| {
        assert s[i + |p|] == a[i + |p|] && a[i + |p|] in a && mark[|p|] == ' ';
        CharAt(s, mark, i, i + |p|);
      } else {
        assert s[|a|] == ' ' && mark[|a| - i] == p[|a| - i] && p[|a| - i] in p;
        CharAt(s, mark, i, |a|);
      }
    }
  }

  lemma NoBlankNoMark(s: string, mark: string)
    requires ' ' in mark && ' ' !in s
    ensures !Contains(s, mark)
  {
    var j :| 0 <= j < |mark| && mark[j] == ' ';
    forall i ensures !Occurs(s, mark, i) {
      if 0 <= i && i + |mark| <= |s| {
        assert s[i..i + |mark|][j] == s[i + j] && s[i + j] in s;
      }
    }
  }

  // ---- Dumped columns ----

  /** Name and type are single words; the type is in capitals already. */
  ghost predicate PlainColumn(upper: Upper, t: Table, col: string) {
    && IsWord(col) && ' ' !in col && IsWord(ColumnType(t, col)) && ' ' !in ColumnType(t, col)
    && Uppered(upper, ColumnType(t, col)) == ColumnType(t, col)
  }

  /** What the dump marks a column with. */
  function MarksOf(t: Table, col: string): string {
    if Some(col) == t.primaryKey then (if col in t.indexes && col !in t.uniques then KeyIndexMarks else KeyMark)
    else if col in t.uniques then UniqueMark
    else if col in t.indexes then IndexMark
    else ""
  }

  predicate Marks(m: string) {
    m == "" || m == UniqueMark || m == IndexMark || m == KeyMark || m == KeyIndexMarks
  }

  function Tail(marks: string): string {
    if marks == "" then "" else " " + marks
  }

  lemma SpecIs(t: Table, col: string)
    ensures ColumnSpec(t, col) == col + " " + ColumnType(t, col) + Tail(MarksOf(t, col)) && Marks(MarksOf(t, col))
  {
    hide ColumnType;
    var head := col + " " + ColumnType(t, col);
    assert head + " PRIMARY KEY" + " INDEX" == head + (" PRIMARY KEY" + " INDEX");
    assert " PRIMARY KEY" + " INDEX" == " " + KeyIndexMarks && " " + KeyMark == " PRIMARY KEY";
    assert " " + UniqueMark == " UNIQUE" && " " + IndexMark == " INDEX";
    assert head + "" == head && head + " PRIMARY KEY" + "" == head + " PRIMARY KEY"
           && head + " UNIQUE" + "" == head + " UNIQUE";
  }

  lemma PlainParts(upper: Upper, t: Table, col: string)
    requires PlainColumn(upper, t, col)
    ensures IsWord(col) && ' ' !in col && IsWord(ColumnType(t, col)) && ' ' !in ColumnType(t, col)
    ensures Uppered(upper, ColumnType(t, col)) == ColumnType(t, col)
  {
  }

  lemma TailTrimmed(col: string, k: string, marks: string)
    requires IsWord(col) && IsWord(k) && Marks(marks)
    ensures Strip(col + " " + k + Tail(marks)) == col + " " + k + Tail(marks)
  {
    var s := col + " " + k + Tail(marks);
    assert s[0] == col[0];
    assert s[|s| - 1] == if marks == "" then k[|k| - 1] else marks[|marks| - 1];
    assert !IsSpace('E') && !IsSpace('X') && !IsSpace('Y');
    StripTrimmed(s);
  }

  lemma Capitals(upper: Upper, marks: string)
    requires UpperOk(upper) && Marks(marks)
    ensures Uppered(upper, Tail(marks)) == Tail(marks) && Uppered(upper, " ") == " "
  {
    CapitalLetters(marks);
    hide UpperOk, Marks, Tail;
    UpperedCapitals(upper, Tail(marks));
    UpperedCapitals(upper, " ");
  }

  lemma CapitalLetters(marks: string)
    requires Marks(marks)
    ensures forall i :: 0 <= i < |Tail(marks)| ==> 'A' <= Tail(marks)[i] <= 'Z' || Tail(marks)[i] == ' '
  {
  }

  /** The text in capitals: the column's name, and behind it its type and its marks. */
  lemma TextOfSpec(upper: Upper, t: Table, col: string)
    requires UpperOk(upper) && PlainColumn(upper, t, col)
    ensures Uppered(upper, Strip(ColumnSpec(t, col)))
            == Uppered(upper, col) + " " + (ColumnType(t, col) + Tail(MarksOf(t, col)))
    ensures ' ' !in Uppered(upper, col)
  {
    hide *;
    var k, tail := ColumnType(t, col), Tail(MarksOf(t, col));
    SpecIs(t, col);
    PlainParts(upper, t, col);
    TailTrimmed(col, k, MarksOf(t, col));
    UpperedWord(upper, col);
    Capitals(upper, MarksOf(t, col));
    UpperedConcat(upper, col + " " + k, tail);
    UpperedConcat(upper, col + " ", k);
    UpperedConcat(upper, col, " ");
    assert Uppered(upper, col) + " " + k + tail == Uppered(upper, col) + " " + (k + tail);
  }

  // ---- Where a mark is found ----

  lemma MarkConstants()
    ensures Contains(UniqueMark, UniqueMark) && !Contains(IndexMark, UniqueMark) && Contains(IndexMark, IndexMark)
    ensures !Contains(UniqueMark, IndexMark)
    ensures Contains(KeyMark, KeyMark) && Contains(KeyIndexMarks, KeyMark)
    ensures !(KeySecond <= UniqueMark) && !(KeySecond <= IndexMark)
  {
    assert Occurs(UniqueMark, UniqueMark, 0) && Occurs(IndexMark, IndexMark, 0);
    assert KeyIndexMarks[0..11] == KeyMark;
    assert Occurs(KeyMark, KeyMark, 0) && Occurs(KeyIndexMarks, KeyMark, 0);
    forall i ensures !Occurs(UniqueMark, IndexMark, i) {
      assert UniqueMark[0..5][0] == 'U' && UniqueMark[1..6][0] == 'N';
    }
    assert KeySecond[0] != UniqueMark[0] && KeySecond[0] != IndexMark[0];
  }

  lemma MarkBlanks()
    ensures KeyFirst + " " + KeySecond == KeyMark && ' ' in KeyMark && ' ' !in KeyFirst && ' ' !in KeySecond
    ensures ' ' !in UniqueMark && ' ' !in IndexMark
  {
    assert KeyMark[7] == ' ';
  }

  lemma PrefixOfWord(m: string, k: string, rest: string)
    requires ' ' !in m
    ensures m <= k + " " + rest <==> m <= k
  {
    var s := k + " " + rest;
    assert s[|k|] == ' ';
    if |m| > |k| {
      assert m[|k|] in m;
    } else {
      assert s[..|m|] == k[..|m|];
    }
  }

  lemma NoTail(k: string, marks: string)
    ensures marks == "" ==> k + Tail(marks) == k
    ensures marks != "" ==> k + Tail(marks) == k + " " + marks
  {
  }

  /** The primary-key mark is found where the dump wrote it, or across the blank between name and type. */
  lemma KeyFound(u: string, k: string, marks: string)
    requires ' ' !in u && ' ' !in k && Marks(marks)
    ensures Contains(u + " " + (k + Tail(marks)), KeyMark)
            <==> marks == KeyMark || marks == KeyIndexMarks || (EndsWith(u, KeyFirst) && KeySecond <= k)
  {
    MarksApart();
    MarkKinds(marks);
    hide *;
    MarkConstants();
    MarkBlanks();
    NoTail(k, marks);
    TwoWordMark(u, k + Tail(marks), KeyFirst, KeySecond);
    if marks == "" {
      NoBlankNoMark(k, KeyMark);
    } else {
      PrefixOfWord(KeySecond, k, marks);
      TwoWordMark(k, marks, KeyFirst, KeySecond);
      if marks == UniqueMark || marks == IndexMark {
        NoBlankNoMark(marks, KeyMark);
      }
    }
  }

  lemma MarkKinds(m: string)
    requires Marks(m)
    ensures m == "" || m == UniqueMark || m == IndexMark || m == KeyMark || m == KeyIndexMarks
  {
  }

  lemma MarksApart()
    ensures UniqueMark != "" && IndexMark != "" && KeyMark != "" && KeyIndexMarks != "" && UniqueMark != IndexMark
    ensures |UniqueMark| < |KeyMark| && |IndexMark| < |KeyMark| && |KeyMark| < |KeyIndexMarks|
  {
  }

  /** Any other mark is found in the name, in the type, or among the marks. */
  lemma WordFound(u: string, k: string, marks: string, mark: string)
    requires ' ' !in mark
    ensures Contains(u + " " + (k + Tail(marks)), mark)
            <==> Contains(u, mark) || Contains(k, mark) || (marks != "" && Contains(marks, mark))
  {
    hide *;
    NoTail(k, marks);
    MarkInWords(u, k + Tail(marks), mark);
    if marks != "" {
      MarkInWords(k, marks, mark);
    }
  }

  /** Where the marks of a dumped column are found: in its name, in its type, or where the dump wrote them. */
  lemma MarksFound(upper: Upper, t: Table, col: string)
    requires UpperOk(upper) && PlainColumn(upper, t, col)
    ensures var text, u, k := Uppered(upper, Strip(ColumnSpec(t, col))), Uppered(upper, col), ColumnType(t, col);
            && (Contains(text, KeyMark) <==> Some(col) == t.primaryKey || (EndsWith(u, KeyFirst) && KeySecond <= k))
            && (Some(col) != t.primaryKey ==>
                  && (Contains(text, UniqueMark)
                      <==> col in t.uniques || Contains(u, UniqueMark) || Contains(k, UniqueMark))
                  && (Contains(text, IndexMark) <==>
                      (col in t.indexes && col !in t.uniques) || Contains(u, IndexMark) || Contains(k, IndexMark)))
  {
    MarksApart();
    SpecIs(t, col);
    hide Contains, Uppered, ColumnType, ColumnSpec, Strip, EndsWith, UpperOk, PlainColumn, Tail, Marks;
    hide KeyMark, UniqueMark, IndexMark, KeyIndexMarks, KeyFirst, KeySecond;
    PlainParts(upper, t, col);
    TextOfSpec(upper, t, col);
    MarkConstants();
    MarkBlanks();
    var u, k, marks := Uppered(upper, col), ColumnType(t, col), MarksOf(t, col);
    KeyFound(u, k, marks);
    WordFound(u, k, marks, UniqueMark);
    WordFound(u, k, marks, IndexMark);
  }

  lemma WordsOfSpec(upper: Upper, t: Table, col: string)
    requires PlainColumn(upper, t, col)
    ensures var words := Words(ColumnSpec(t, col)); |words| > 1 && words[0] == col && words[1] == ColumnType(t, col)
  {
    hide *;
    var k, marks := ColumnType(t, col), MarksOf(t, col);
    SpecIs(t, col);
    PlainParts(upper, t, col);
    NoTail(k, marks);
    var rest := k + Tail(marks);
    assert col + " " + k + Tail(marks) == col + " " + rest;
    FirstWord(col, rest);
    FirstWord(k, if marks == "" then "" else marks);
  }

  lemma FirstWord(w: string, rest: string)
    requires IsWord(w)
    ensures Words(w + " " + rest) == [w] + Words(rest) && Words(w) == [w]
  {
    assert [] + w == w;
    hide IsWord, WordsFrom;
    WordFirst(w, [], rest);
  }

  /** The column as the table has it. */
  function ColumnOf(t: Table, col: string): Column {
    Column(col, ColumnType(t, col), Some(col) == t.primaryKey, col in t.uniques, col in t.indexes)
  }

  /** A dumped column is read back as it was if and only if: the primary key is neither UNIQUE nor indexed besides;
      another column is indexed if it is UNIQUE, and its name and type contain no mark that it lacks. */
  lemma ColumnComesBackIff(upper: Upper, t: Table, col: string)
    requires UpperOk(upper) && PlainColumn(upper, t, col)
    ensures var u, k := Uppered(upper, col), ColumnType(t, col);
            ReadColumn(upper, ColumnSpec(t, col)) == ColumnOf(t, col) <==>
            if Some(col) == t.primaryKey then col !in t.uniques && col !in t.indexes
            else
              && (col in t.uniques ==> col in t.indexes)
              && !(EndsWith(u, KeyFirst) && KeySecond <= k)
              && (Contains(u, UniqueMark) || Contains(k, UniqueMark) ==> col in t.uniques)
              && (Contains(u, IndexMark) || Contains(k, IndexMark) ==> col in t.indexes)
  {
    WordsOfSpec(upper, t, col);
    MarksFound(upper, t, col);
    PlainParts(upper, t, col);
    hide Words, Contains, EndsWith, ColumnSpec, Strip, ColumnType, Uppered, PlainColumn, UpperOk;
    hide KeyMark, UniqueMark, IndexMark, KeyFirst, KeySecond;
  }

  const Ascii: Upper := (c: char) => if 'a' <= c <= 'z' then [(c as int - 32) as char] else [c]

  const OneColumn := Table("t", ["index"], map[], None, {}, {}, 1, [])

  /** For instance, a plain column named index comes back indexed. */
  lemma NameMakesIndex()
    ensures ReadColumn(Ascii, ColumnSpec(OneColumn, "index")).index
  {
    hide *;
    NamedIndex();
    PlainIndex();
    MarksFound(Ascii, OneColumn, "index");
    ReadIndex(Ascii, ColumnSpec(OneColumn, "index"));
  }

  lemma ReadIndex(upper: Upper, spec: string)
    requires Contains(Uppered(upper, Strip(spec)), IndexMark) && !Contains(Uppered(upper, Strip(spec)), KeyMark)
    ensures ReadColumn(upper, spec).index
  {
    hide Contains, Strip, Words, Uppered;
  }

  lemma PlainIndex()
    ensures UpperOk(Ascii) && PlainColumn(Ascii, OneColumn, "index") && OneColumn.primaryKey == None
    ensures !(KeySecond <= ColumnType(OneColumn, "index"))
  {
    UpperedCapitals(Ascii, "TEXT");
    assert KeySecond[0] != "TEXT"[0];
  }

  lemma UpperedFive(upper: Upper, a: char, b: char, c: char, d: char, e: char)
    ensures Uppered(upper, [a, b, c, d, e]) == upper(a) + (upper(b) + (upper(c) + (upper(d) + upper(e))))
  {
    UpperedCons(upper, a, [b, c, d, e]);
    UpperedCons(upper, b, [c, d, e]);
    UpperedCons(upper, c, [d, e]);
    UpperedCons(upper, d, [e]);
    UpperedCons(upper, e, []);
    hide Uppered;
    assert [a] + [b, c, d, e] == [a, b, c, d, e] && [b] + [c, d, e] == [b, c, d, e] && [c] + [d, e] == [c, d, e];
    assert [d] + [e] == [d, e] && [e] + [] == [e] && upper(e) + [] == upper(e);
  }

  lemma UpperedCons(upper: Upper, c: char, s: string)
    ensures Uppered(upper, [c] + s) == upper(c) + Uppered(upper, s) && Uppered(upper, []) == []
  {
    assert ([c] + s)[1..] == s;
  }

  lemma NamedIndex()
    ensures Contains(Uppered(Ascii, "index"), IndexMark) && !EndsWith(Uppered(Ascii, "index"), KeyFirst)
  {
    MarkConstants();
    UpperedFive(Ascii, 'i', 'n', 'd', 'e', 'x');
    hide Uppered, Contains;
    assert "index" == ['i', 'n', 'd', 'e', 'x'];
    assert Uppered(Ascii, "index") == "INDEX";
  }
}
