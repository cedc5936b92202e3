/** What the splitter makes of a dump's lines: exactly when it gives back the
    statements they were written from. */
module SqlPieces {
  import opened Wrappers
  import opened SqlSplit
  import opened SqlDump

  // ---- A statement in one piece ----

  ghost predicate Safe(t: string) {
    Tame(t, Start) && After(Start, t) == Start
  }

  /** A statement as the splitter returns it. */
  ghost predicate Good(s: string) {
    s != [] && Safe(s) && Trimmed(s)
  }

  ghost predicate AllGood(statements: seq<string>) {
    forall i :: 0 <= i < |statements| ==> Good(statements[i])
  }

  // ---- Splitting dump lines ----

  ghost predicate GoodItems(items: seq<Item>) {
    forall i :: 0 <= i < |items| && items[i].Some? ==> Good(items[i].value)
  }

  function Body(items: seq<Item>): string {
    Join(Lines(items), "\n")
  }

  lemma BodyUnfolds(items: seq<Item>)
    requires items != []
    ensures Body(items) == (if items[0].Some? then items[0].value + ";" else "")
                           + (if |items| == 1 then "" else "\n" + Body(items[1..]))
  {
    var line := if items[0].Some? then items[0].value + ";" else "";
    assert Lines(items) == [line] + Lines(items[1..]);
    assert ([line] + Lines(items[1..]))[1..] == Lines(items[1..]);
    if |items| == 1 {
      assert Body(items) == line && line + "" == line;
    } else {
      assert line + "\n" + Body(items[1..]) == line + ("\n" + Body(items[1..]));
    }
  }

  lemma {:induction false} SplitBlank(gap: string, current: string)
    requires Blank(gap) && Blank(current)
    ensures SplitFrom(gap, Start, current) == []
    decreases |gap|
  {
    hide Finish;
    if gap == [] {
      BlankVanishes(current);
    } else {
      assert IsSpace(gap[0]) && Step(Start, gap[0]) == Start && gap[0] != ';';
      SplitBlank(gap[1..], current + [gap[0]]);
    }
  }

  lemma GapGrows(gap: string)
    requires Blank(gap)
    ensures Blank(gap + "\n") && Blank("\n") && Blank([])
  {
  }

  /** Lines split back into their statements. */
  lemma {:induction false} SplitItems(gap: string, items: seq<Item>)
    requires Blank(gap) && GoodItems(items)
    ensures SplitFrom(gap + Body(items), Start, []) == Statements(items)
    decreases |items|, 0
  {
    hide SplitFrom, Blank, Body, Safe, Trimmed;
    GapGrows(gap);
    if items == [] {
      NoBody();
      assert gap + [] == gap;
      SplitBlank(gap, []);
    } else {
      BodyUnfolds(items);
      var rest := if |items| == 1 then "" else "\n" + Body(items[1..]);
      if items[0].Some? {
        var t := items[0].value;
        assert gap + Body(items) == gap + t + ";" + rest;
        GoodSplits(gap, t, rest);
        SplitRest("", items[1..], rest);
        assert "" + rest == rest;
      } else {
        SplitRest(gap, items[1..], rest);
        assert gap + Body(items) == gap + rest;
        assert [] + Statements(items[1..]) == Statements(items[1..]);
      }
    }
  }

  lemma NoBody()
    ensures Body([]) == []
  {
  }

  lemma GoodSplits(gap: string, t: string, rest: string)
    requires Blank(gap) && Good(t)
    ensures SplitFrom(gap + t + ";" + rest, Start, []) == [t] + SplitFrom(rest, Start, [])
  {
    hide Blank, Tame, After, SplitFrom, Trimmed;
    SplitStatement(gap, t, rest);
  }

  lemma SplitRest(gap: string, items: seq<Item>, rest: string)
    requires Blank(gap) && GoodItems(items)
    requires rest == if items == [] then "" else "\n" + Body(items)
    ensures SplitFrom(gap + rest, Start, []) == Statements(items)
    decreases |items|, 1
  {
    hide SplitFrom, Blank, Body, Good;
    GapGrows(gap);
    if items == [] {
      assert gap + rest == gap;
      SplitBlank(gap, []);
    } else {
      assert gap + rest == (gap + "\n") + Body(items);
      SplitItems(gap + "\n", items);
    }
  }

  // ---- The header comment ----

  /** A header line: a comment without newline, block comment, top-level semicolon or open quote. */
  ghost predicate Header(h: string) {
    |h| >= 2 && h[0] == '-' && h[1] == '-' && '\n' !in h && Unopened(h) && Uncut(h, Start) && After(Start, h) == Start
  }

  /** No slash and star in a row. */
  predicate Unopened(t: string) {
    forall i :: 0 <= i < |t| ==> !Pair(t, i, '/', '*')
  }

  predicate Uncut(t: string, st: Lex) {
    t != [] ==> !(TopLevel(st) && t[0] == ';') && Uncut(t[1..], Step(st, t[0]))
  }

  lemma {:induction false} UncutConcat(a: string, b: string, st: Lex)
    requires Uncut(a, st) && Uncut(b, After(st, a))
    ensures Uncut(a + b, st)
    decreases |a|
  {
    if a == [] {
      assert a + b == b;
    } else {
      assert (a + b)[1..] == a[1..] + b;
      UncutConcat(a[1..], b, Step(st, a[0]));
    }
  }

  lemma {:induction false} SkipToNewline(a: string, b: string)
    requires '\n' !in a
    ensures SkipLine(a + "\n" + b) == "\n" + b
    decreases |a|
  {
    if a == [] {
      assert a + "\n" + b == "\n" + b;
    } else {
      assert a[0] in a;
      assert (a + "\n" + b)[1..] == a[1..] + "\n" + b;
      SkipToNewline(a[1..], b);
    }
  }

  lemma {:induction false} SplitPrefix(a: string, t: string, st: Lex, current: string)
    requires Uncut(a, st)
    ensures SplitFrom(a + t, st, current) == SplitFrom(t, After(st, a), current + a)
    decreases |a|
  {
    hide Finish, Step;
    if a == [] {
      assert a + t == t && current + a == current;
    } else {
      assert (a + t)[1..] == a[1..] + t;
      assert current + [a[0]] + a[1..] == current + a;
      SplitPrefix(a[1..], t, Step(st, a[0]), current + [a[0]]);
    }
  }

  lemma {:induction false} LStripParts(s: string) returns (gap: string)
    ensures Blank(gap) && s == gap + LStrip(s) && (LStrip(s) != [] ==> !IsSpace(LStrip(s)[0]))
    decreases |s|
  {
    hide IsSpace;
    gap := [];
    if s != [] && IsSpace(s[0]) {
      var rest := LStripParts(s[1..]);
      gap := [s[0]] + rest;
      assert s == [s[0]] + s[1..];
    }
  }

  lemma {:induction false} RStripParts(s: string) returns (gap: string)
    ensures Blank(gap) && s == RStrip(s) + gap && (RStrip(s) != [] ==> !IsSpace(RStrip(s)[|RStrip(s)| - 1]))
    decreases |s|
  {
    hide IsSpace, Blank;
    gap := [];
    if s != [] && IsSpace(s[|s| - 1]) {
      var front, last := s[..|s| - 1], s[|s| - 1];
      var rest := RStripParts(front);
      gap := rest + [last];
      BlankMore(rest, last);
      assert s == front + [last];
    } else {
      BlankNone();
    }
  }

  lemma BlankMore(s: string, c: char)
    requires Blank(s) && IsSpace(c)
    ensures Blank(s + [c])
  {
    hide IsSpace;
  }

  lemma BlankNone()
    ensures Blank("")
  {
  }

  lemma StripParts(s: string) returns (before: string, after: string)
    ensures Blank(before) && Blank(after) && s == before + Strip(s) + after && Trimmed(Strip(s))
  {
    hide IsSpace, Blank, LStrip, RStrip;
    before := LStripParts(s);
    after := RStripParts(LStrip(s));
    var m := Strip(s);
    assert LStrip(s) == m + after;
    assert before + (m + after) == before + m + after;
    assert m != [] ==> LStrip(s)[0] == m[0];
  }

  lemma {:induction false} LStripGap(gap: string, s: string)
    requires Blank(gap)
    ensures LStrip(gap + s) == LStrip(s)
    decreases |gap|
  {
    hide IsSpace;
    if gap == [] {
      assert gap + s == s;
    } else {
      assert (gap + s)[1..] == gap[1..] + s;
      LStripGap(gap[1..], s);
    }
  }

  lemma {:induction false} RStripGap(s: string, gap: string)
    requires Blank(gap)
    ensures RStrip(s + gap) == RStrip(s)
    decreases |gap|
  {
    hide IsSpace;
    if gap == [] {
      assert s + gap == s;
    } else {
      var n := |gap| - 1;
      assert (s + gap)[..|s + gap| - 1] == s + gap[..n];
      RStripGap(s, gap[..n]);
    }
  }

  /** Blanks around a trimmed text are stripped. */
  lemma StripAround(before: string, s: string, after: string)
    requires Blank(before) && Blank(after) && Trimmed(s)
    ensures Strip(before + s + after) == s
  {
    hide IsSpace, LStrip, RStrip;
    assert before + s + after == before + (s + after);
    LStripGap(before, s + after);
    if s == [] {
      assert s + after == after;
      AllBlank(after);
    } else {
      NothingToStrip(s, after);
      RStripGap(s, after);
    }
  }

  lemma AllBlank(s: string)
    requires Blank(s)
    ensures RStrip(LStrip(s)) == [] && RStrip([]) == [] && LStrip([]) == []
  {
    hide IsSpace;
    assert s + [] == s;
    LStripGap(s, []);
  }

  lemma NothingToStrip(s: string, after: string)
    requires s != [] && Trimmed(s)
    ensures LStrip(s + after) == s + after && RStrip(s) == s
  {
    hide IsSpace;
  }

  lemma {:induction false} StripFromGap(gap: string, s: string)
    requires Blank(gap)
    ensures StripFrom(gap + s, Start) == gap + StripFrom(s, Start)
    decreases |gap|
  {
    if gap == [] {
      assert gap + s == s;
    } else {
      assert IsSpace(gap[0]);
      assert (gap + s)[1..] == gap[1..] + s;
      StripFromGap(gap[1..], s);
    }
  }

  lemma {:induction false} SkipAll(s: string)
    requires '\n' !in s
    ensures SkipLine(s) == []
    decreases |s|
  {
    if s != [] {
      assert s[0] in s;
      SkipAll(s[1..]);
    }
  }

  /** A header glued to the text after it is stripped again, whatever that text is. */
  lemma HeaderStripped(h: string, c: string)
    requires Header(h)
    ensures Clean(h + "\n" + c) == Clean(c)
  {
    hide Uncut, After, IsSpace, Unopened, StripFrom, Strip;
    var before, after := StripParts(c);
    var m := Strip(c);
    NewlineBlank(before);
    if m == [] {
      HeaderAlone(h, before + m + after);
      StripOfNothing();
    } else {
      var glued := h + "\n" + before + m;
      HeaderTrimmed(h, "\n" + before, m);
      assert h + "\n" + c == "" + glued + after;
      StripAround("", glued, after);
      HeaderLineSkipped(h, before + m);
      assert glued == h + "\n" + (before + m);
      assert "\n" + (before + m) == ("\n" + before) + m;
      StripFromGap("\n" + before, m);
      StripIgnoresGap("\n" + before, StripFrom(m, Start));
    }
  }

  lemma NewlineBlank(gap: string)
    requires Blank(gap)
    ensures Blank("\n" + gap) && Blank("")
  {
  }

  lemma StripIgnoresGap(gap: string, s: string)
    requires Blank(gap)
    ensures Strip(gap + s) == Strip(s)
  {
    hide IsSpace;
    LStripGap(gap, s);
  }

  lemma StripOfNothing()
    ensures Strip([]) == [] && StripFrom([], Start) == []
  {
  }

  lemma HeaderTrimmed(h: string, gap: string, m: string)
    requires Header(h) && m != [] && Trimmed(m)
    ensures Trimmed(h + gap + m)
  {
    assert (h + gap + m)[0] == '-' && (h + gap + m)[|h + gap + m| - 1] == m[|m| - 1];
  }

  lemma HeaderLineSkipped(h: string, s: string)
    requires Header(h)
    ensures StripFrom(h + "\n" + s, Start) == StripFrom("\n" + s, Start)
  {
    hide Uncut, After, IsSpace, Unopened;
    var text := h + "\n" + s;
    assert text[0] == '-' && text[1] == '-';
    assert text[1..] == h[1..] + "\n" + s;
    SkipToNewline(h[1..], s);
  }

  /** The header with nothing but blanks after it leaves nothing. */
  lemma HeaderAlone(h: string, gap: string)
    requires Header(h) && Blank(gap)
    ensures Clean(h + "\n" + gap) == []
  {
    hide Uncut, After, IsSpace, Unopened, StripFrom, Blank;
    var after := RStripParts(h);
    var line := RStrip(h);
    TwoDashesStay(h, line, after);
    GapJoined(after, gap);
    assert h + "\n" + gap == "" + line + (after + "\n" + gap);
    NewlineBlank("") by { BlankNothing(); }
    StripAround("", line, after + "\n" + gap);
    LineVanishes(line);
    StripOfNothing();
  }

  lemma BlankNothing()
    ensures Blank("")
  {
  }

  lemma GapJoined(a: string, b: string)
    requires Blank(a) && Blank(b)
    ensures Blank(a + "\n" + b)
  {
  }

  lemma TwoDashesStay(h: string, line: string, after: string)
    requires Header(h) && h == line + after && Blank(after) && (line != [] ==> !IsSpace(line[|line| - 1]))
    ensures |line| >= 2 && line[0] == '-' && line[1] == '-' && '\n' !in line && Trimmed(line)
  {
    hide Uncut, After, Unopened;
    assert forall i :: |line| <= i < |h| ==> h[i] == after[i - |line|];
    assert forall i :: 0 <= i < |line| ==> line[i] == h[i] && h[i] in h;
    MarksCount();
  }

  lemma LineVanishes(line: string)
    requires |line| >= 2 && line[0] == '-' && line[1] == '-' && '\n' !in line
    ensures StripFrom(line, Start) == []
  {
    assert forall i :: 0 <= i < |line[1..]| ==> line[1..][i] == line[i + 1] && line[i + 1] in line;
    SkipAll(line[1..]);
  }

  lemma {:induction false} CurrentUnderHeader(h: string, t: string, st: Lex, current: string)
    requires Header(h)
    ensures SplitFrom(t, st, h + "\n" + current) == SplitFrom(t, st, current)
    decreases |t|
  {
    hide Header, Clean, Step;
    HeaderStripped(h, current);
    if t != [] && !(TopLevel(st) && t[0] == ';') {
      assert h + "\n" + current + [t[0]] == h + "\n" + (current + [t[0]]);
      CurrentUnderHeader(h, t[1..], Step(st, t[0]), current + [t[0]]);
    }
  }

  /** The header line does not change how the text below it splits. */
  lemma SplitUnderHeader(h: string, t: string)
    requires Header(h)
    ensures SplitFrom(h + "\n" + t, Start, []) == SplitFrom(t, Start, [])
  {
    hide SplitFrom, Unopened;
    NewlineUncut();
    UncutConcat(h, "\n", Start);
    AfterConcat(Start, h, "\n");
    SplitPrefix(h + "\n", t, Start, []);
    assert [] + (h + "\n") == h + "\n" + [];
    CurrentUnderHeader(h, t, Start, []);
  }

  lemma NewlineUncut()
    ensures Uncut("\n", Start) && After(Start, "\n") == Start
  {
    assert "\n"[1..] == [];
  }

  // ---- What block-comment removal leaves ----

  /** The characters that are not white space. */
  function Count(t: string): nat {
    if t == [] then 0 else (if IsSpace(t[0]) then 0 else 1) + Count(t[1..])
  }

  lemma {:induction false} CountConcat(a: string, b: string)
    ensures Count(a + b) == Count(a) + Count(b)
    decreases |a|
  {
    if a == [] {
      assert a + b == b;
    } else {
      assert (a + b)[1..] == a[1..] + b;
      CountConcat(a[1..], b);
    }
  }

  lemma {:induction false} CountLStrip(s: string)
    ensures Count(LStrip(s)) == Count(s)
    decreases |s|
  {
    if s != [] && IsSpace(s[0]) {
      CountLStrip(s[1..]);
    }
  }

  lemma {:induction false} CountRStrip(s: string)
    ensures Count(RStrip(s)) == Count(s)
    decreases |s|
  {
    hide IsSpace;
    if s != [] && IsSpace(s[|s| - 1]) {
      CountRStrip(s[..|s| - 1]);
      CountConcat(s[..|s| - 1], [s[|s| - 1]]);
      assert s[..|s| - 1] + [s[|s| - 1]] == s;
    }
  }

  lemma {:induction false} CountSkip(s: string)
    ensures Count(SkipLine(s)) <= Count(s)
    decreases |s|
  {
    if s != [] && s[0] != '\n' {
      CountSkip(s[1..]);
    }
  }

  lemma {:induction false} CountStrip(s: string, st: Lex)
    ensures Count(StripFrom(s, st)) <= Count(s)
    decreases |s|
  {
    hide IsSpace, Step;
    if s == [] {
    } else if TopLevel(st) && CommentStarts(s) {
      CountSkip(s[1..]);
      CountStrip(SkipLine(s[1..]), st);
    } else {
      CountStrip(s[1..], Step(st, s[0]));
      CountConcat([s[0]], StripFrom(s[1..], Step(st, s[0])));
      assert Count([s[0]]) == if IsSpace(s[0]) then 0 else 1;
    }
  }

  lemma CountClean(s: string)
    ensures Count(Clean(s)) <= Count(s)
  {
    hide LStrip, RStrip, StripFrom, Count;
    CountLStrip(s);
    CountRStrip(LStrip(s));
    CountStrip(Strip(s), Start);
    CountLStrip(StripFrom(Strip(s), Start));
    CountRStrip(LStrip(StripFrom(Strip(s), Start)));
  }

  /** The characters of statements, and a semicolon each. */
  function Total(statements: seq<string>): nat {
    if statements == [] then 0 else Count(statements[0]) + 1 + Total(statements[1..])
  }

  /** Splitting never makes more than it is given, but for a missing last semicolon. */
  lemma {:induction false} SplitTotal(sql: string, st: Lex, current: string)
    ensures Total(SplitFrom(sql, st, current)) <= Count(current) + Count(sql) + 1
    decreases |sql|
  {
    hide Clean, Step, IsSpace;
    CountClean(current);
    if sql == [] {
    } else if TopLevel(st) && sql[0] == ';' {
      SplitTotal(sql[1..], Start, []);
      SemicolonCounts();
      var rest := SplitFrom(sql[1..], Start, []);
      assert Clean(current) != [] ==> ([Clean(current)] + rest)[1..] == rest;
      assert [] + rest == rest;
    } else {
      SplitTotal(sql[1..], Step(st, sql[0]), current + [sql[0]]);
      CountConcat(current, [sql[0]]);
    }
  }

  lemma SemicolonCounts()
    ensures !IsSpace(';') && !IsSpace('/') && !IsSpace('*')
  {
  }

  lemma {:induction false} BodyTotal(items: seq<Item>)
    ensures Count(Body(items)) == Total(Statements(items))
    decreases |items|
  {
    hide Body, IsSpace;
    if items == [] {
      NoBody();
    } else {
      BodyTotal(items[1..]);
      BodyUnfolds(items);
      var line := if items[0].Some? then items[0].value + ";" else "";
      var rest := if |items| == 1 then "" else "\n" + Body(items[1..]);
      CountConcat(line, rest);
      CountMarks();
      if |items| == 1 {
        assert items[1..] == [];
        NoBody();
      } else {
        CountConcat("\n", Body(items[1..]));
      }
      if items[0].Some? {
        CountConcat(items[0].value, ";");
        assert ([items[0].value] + Statements(items[1..]))[1..] == Statements(items[1..]);
      } else {
        assert [] + Statements(items[1..]) == Statements(items[1..]);
      }
    }
  }

  lemma CountMarks()
    ensures Count(";") == 1 && Count("\n") == 0 && Count("") == 0 && Count("/*") == 2 && Count("*/") == 2
  {
    assert ";"[1..] == [] && "\n"[1..] == [];
    assert "/*"[1..] == "*" && "*/"[1..] == "/" && "*"[1..] == [] && "/"[1..] == [];
  }

  /** Removal takes away at least the comment's own four marks. */
  lemma {:induction false} RemovalTakesFour(t: string)
    ensures Count(RemoveBlocks(t)) <= Count(t)
    ensures HasBlockComment(t) ==> Count(RemoveBlocks(t)) + 4 <= Count(t)
    decreases |t|
  {
    hide Count, FirstBlock, HasBlockComment;
    BlockFoundIff(t);
    if FirstBlock(t).Some? {
      var (i, j) := FirstBlock(t).value;
      BlockMarks(t);
      RemovalTakesFour(t[j + 2..]);
      CountMarks();
      CountConcat(t[..i], t[i..]);
      CountConcat("/*", t[i + 2..]);
      CountConcat(t[i + 2..j], t[j..]);
      CountConcat("*/", t[j + 2..]);
      CountConcat(t[..i], RemoveBlocks(t[j + 2..]));
      assert t[..i] + t[i..] == t && "/*" + t[i + 2..] == t[i..];
      assert t[i + 2..j] + t[j..] == t[i + 2..] && "*/" + t[j + 2..] == t[j..];
    }
  }

  lemma BlockMarks(t: string)
    requires FirstBlock(t).Some?
    ensures var (i, j) := FirstBlock(t).value; Pair(t, i, '/', '*') && Pair(t, j, '*', '/')
  {
  }

  lemma BlockShifts(a: string, r: string)
    requires Unopened(a) && a != [] && a[|a| - 1] != '/'
    ensures FirstBlock(a + r) == if FirstBlock(r).None? then None
                                 else Some((|a| + FirstBlock(r).value.0, |a| + FirstBlock(r).value.1))
  {
    hide FindPair, Unopened, Pair;
    FindSkips(a, r);
    var i := FindPair(r, 0, '/', '*');
    if i < |r| {
      FindShift(a, r, i + 2, '*', '/') by { RoomForPair(r); }
    }
  }

  lemma RoomForPair(r: string)
    ensures var i := FindPair(r, 0, '/', '*'); i < |r| ==> i + 2 <= |r|
  {
  }

  /** A prefix where none opens is out of reach of block comments. */
  lemma RemovalSkips(a: string, r: string)
    requires Unopened(a) && a != [] && a[|a| - 1] != '/'
    ensures RemoveBlocks(a + r) == a + RemoveBlocks(r)
    ensures HasBlockComment(a + r) <==> HasBlockComment(r)
  {
    hide RemoveBlocks, HasBlockComment, FirstBlock, Unopened;
    BlockFoundIff(a + r);
    BlockFoundIff(r);
    BlockShifts(a, r);
    RemoveUnfolds(a + r);
    RemoveUnfolds(r);
    if FirstBlock(r).Some? {
      var (i, j) := FirstBlock(r).value;
      assert (a + r)[..|a| + i] == a + r[..i] && (a + r)[|a| + j + 2..] == r[j + 2..];
      assert a + r[..i] + RemoveBlocks(r[j + 2..]) == a + (r[..i] + RemoveBlocks(r[j + 2..]));
    }
  }

  lemma RemoveUnfolds(t: string)
    ensures var r := FirstBlock(t);
            RemoveBlocks(t) == if r.None? then t else t[..r.value.0] + RemoveBlocks(t[r.value.1 + 2..])
  {
  }

  lemma {:induction false} FindShift(a: string, r: string, begin: nat, x: char, y: char)
    requires begin <= |r|
    ensures FindPair(a + r, |a| + begin, x, y) == |a| + FindPair(r, begin, x, y)
    decreases |r| - begin
  {
    assert Pair(a + r, |a| + begin, x, y) <==> Pair(r, begin, x, y);
    if begin < |r| && !Pair(r, begin, x, y) {
      FindShift(a, r, begin + 1, x, y);
    }
  }

  lemma FindSkips(a: string, r: string)
    requires Unopened(a) && a != [] && a[|a| - 1] != '/'
    ensures FindPair(a + r, 0, '/', '*') == |a| + FindPair(r, 0, '/', '*')
  {
    FindShift(a, r, 0, '/', '*');
    FindFrom(a, r, |a|);
  }

  lemma {:induction false} FindFrom(a: string, r: string, k: nat)
    requires Unopened(a) && a != [] && a[|a| - 1] != '/' && k <= |a|
    ensures FindPair(a + r, |a| - k, '/', '*') == FindPair(a + r, |a|, '/', '*')
    decreases k
  {
    if k > 0 {
      assert !Pair(a, |a| - k, '/', '*');
      assert !Pair(a + r, |a| - k, '/', '*');
      FindFrom(a, r, k - 1);
    }
  }

  // ---- A list that splits back consists of good statements ----

  /** The length of the first piece: up to a top-level semicolon, or everything. */
  function Cut(t: string, st: Lex): (i: nat)
    ensures i <= |t|
  {
    if t == [] || (TopLevel(st) && t[0] == ';') then 0 else 1 + Cut(t[1..], Step(st, t[0]))
  }

  lemma {:induction false} CutMeans(t: string, st: Lex)
    ensures var i := Cut(t, st);
            Uncut(t[..i], st) && (i < |t| ==> t[i] == ';' && TopLevel(After(st, t[..i])))
    decreases |t|
  {
    hide Step;
    if t != [] && !(TopLevel(st) && t[0] == ';') {
      CutMeans(t[1..], Step(st, t[0]));
      var i := Cut(t, st);
      assert t[..i][0] == t[0] && t[..i][1..] == t[1..][..i - 1];
    }
  }

  lemma SplitCut(t: string)
    ensures var i := Cut(t, Start);
            SplitFrom(t, Start, []) == if i == |t| then Finish(t) else Finish(t[..i]) + SplitFrom(t[i + 1..], Start, [])
  {
    hide Finish, Cut, Uncut, SplitFrom, After, TopLevel;
    CutMeans(t, Start);
    var i := Cut(t, Start);
    if i == |t| {
      assert t[..i] == t;
      SplitWhole(t);
    } else {
      SplitAt(t, i);
    }
  }

  lemma SplitWhole(t: string)
    requires Uncut(t, Start)
    ensures SplitFrom(t, Start, []) == Finish(t)
  {
    hide Finish, Uncut, SplitFrom, After;
    SplitPrefix(t, [], Start, []);
    SplitEnd(After(Start, t), t);
    assert t + [] == t && [] + t == t;
  }

  lemma SplitAt(t: string, i: nat)
    requires i < |t| && Uncut(t[..i], Start) && t[i] == ';' && TopLevel(After(Start, t[..i]))
    ensures SplitFrom(t, Start, []) == Finish(t[..i]) + SplitFrom(t[i + 1..], Start, [])
  {
    hide Finish, Uncut, SplitFrom, After, TopLevel;
    var a, b := t[..i], t[i..];
    assert t == a + b && [] + a == a && b[1..] == t[i + 1..];
    SplitPrefix(a, b, Start, []);
    SplitAtSemicolon(b, After(Start, a), a);
  }

  lemma SplitEnd(st: Lex, current: string)
    ensures SplitFrom([], st, current) == Finish(current)
  {
  }

  lemma SplitAtSemicolon(t: string, st: Lex, current: string)
    requires t != [] && t[0] == ';' && TopLevel(st)
    ensures SplitFrom(t, st, current) == Finish(current) + SplitFrom(t[1..], Start, [])
  {
    hide Finish;
  }

  lemma {:induction false} PiecesTrimmed(t: string, st: Lex, current: string)
    ensures forall p :: p in SplitFrom(t, st, current) ==> p != [] && Trimmed(p)
    decreases |t|
  {
    hide Step, Trimmed;
    var before, after := StripParts(StripFrom(Strip(current), Start));
    if t != [] {
      if TopLevel(st) && t[0] == ';' {
        PiecesTrimmed(t[1..], Start, []);
      } else {
        PiecesTrimmed(t[1..], Step(st, t[0]), current + [t[0]]);
      }
    }
  }

  function Hashes(t: string): nat {
    if t == [] then 0 else (if t[0] == '#' then 1 else 0) + Hashes(t[1..])
  }

  lemma {:induction false} HashesConcat(a: string, b: string)
    ensures Hashes(a + b) == Hashes(a) + Hashes(b)
    decreases |a|
  {
    if a == [] {
      assert a + b == b;
    } else {
      assert (a + b)[1..] == a[1..] + b;
      HashesConcat(a[1..], b);
    }
  }

  lemma {:induction false} BlankHasNoHash(s: string)
    requires Blank(s)
    ensures Hashes(s) == 0 && Count(s) == 0
    decreases |s|
  {
    if s != [] {
      assert IsSpace(s[0]);
      BlankHasNoHash(s[1..]);
    }
  }

  lemma {:induction false} HashesSkip(s: string)
    ensures Hashes(SkipLine(s)) <= Hashes(s) && Count(SkipLine(s)) <= Count(s)
    decreases |s|
  {
    hide IsSpace;
    if s != [] && s[0] != '\n' {
      HashesSkip(s[1..]);
    }
  }

  /** A stripped comment takes a hash sign with it, or two dashes. */
  lemma {:induction false} StripLoses(s: string, st: Lex)
    ensures var t := StripFrom(s, st);
            && Count(t) <= Count(s) && Hashes(t) <= Hashes(s)
            && (t == s || (Count(t) < Count(s) && (Hashes(t) < Hashes(s) || Count(t) + 2 <= Count(s))))
    decreases |s|
  {
    hide IsSpace, Step;
    MarksCount();
    if s == [] {
    } else if TopLevel(st) && CommentStarts(s) {
      var skipped := SkipLine(s[1..]);
      StripLoses(skipped, st);
      HashesSkip(s[1..]);
      if s[0] != '#' {
        HashesSkip(s[2..]);
        assert s[1..][1..] == s[2..];
      }
    } else {
      var rest := StripFrom(s[1..], Step(st, s[0]));
      StripLoses(s[1..], Step(st, s[0]));
      assert ([s[0]] + rest)[1..] == rest && s == [s[0]] + s[1..];
    }
  }

  lemma MarksCount()
    ensures !IsSpace('#') && !IsSpace('-') && !IsSpace(';')
  {
  }

  lemma CountStripped(s: string)
    ensures Count(Strip(s)) == Count(s) && Hashes(Strip(s)) == Hashes(s) && Trimmed(Strip(s))
  {
    hide IsSpace, Strip, Trimmed;
    var before, after := StripParts(s);
    BlankHasNoHash(before);
    BlankHasNoHash(after);
    CountConcat(before + Strip(s), after);
    CountConcat(before, Strip(s));
    HashesConcat(before + Strip(s), after);
    HashesConcat(before, Strip(s));
  }

  /** Cleaning that loses no character strips blanks only. */
  lemma LosslessIsStrip(c: string)
    requires Count(Clean(c)) == Count(c)
    ensures StripFrom(Strip(c), Start) == Strip(c) && Clean(c) == Strip(c)
  {
    hide Strip, StripFrom, Count, Hashes, Trimmed;
    CountStripped(c);
    CountStripped(StripFrom(Strip(c), Start));
    StripLoses(Strip(c), Start);
    assert "" + Strip(c) + "" == Strip(c);
    BlankNothing();
    StripAround("", Strip(c), "");
  }

  lemma {:induction false} UncutGap(gap: string, t: string)
    requires Blank(gap) && Uncut(gap + t, Start)
    ensures Uncut(t, Start) && (t != [] ==> t[0] != ';')
    decreases |gap|
  {
    if gap == [] {
      assert gap + t == t;
    } else {
      assert IsSpace(gap[0]) && (gap + t)[1..] == gap[1..] + t;
      UncutGap(gap[1..], t);
    }
  }

  lemma {:induction false} UncutPrefix(a: string, b: string, st: Lex)
    requires Uncut(a + b, st)
    ensures Uncut(a, st)
    decreases |a|
  {
    if a != [] {
      assert (a + b)[1..] == a[1..] + b;
      UncutPrefix(a[1..], b, Step(st, a[0]));
    }
  }

  /** When splitting loses nothing but a last semicolon, the first piece does not begin with one. */
  lemma LosslessStart(t: string)
    requires Total(SplitFrom(t, Start, [])) == Count(t) + 1
    ensures var r := SplitFrom(t, Start, []); r != [] && (r[0] != [] ==> r[0][0] != ';')
  {
    hide SplitFrom, Clean, Cut, Uncut, IsSpace;
    var i := Cut(t, Start);
    var piece := t[..i];
    SplitCut(t);
    CutMeans(t, Start);
    CountClean(piece);
    assert piece + t[i..] == t;
    CountConcat(piece, t[i..]);
    if i < |t| {
      SplitTotal(t[i + 1..], Start, []);
      SemicolonCounts();
      assert t[i..][1..] == t[i + 1..];
      TotalCons(Clean(piece), SplitFrom(t[i + 1..], Start, []));
    } else {
      assert piece == t;
      TotalCons(Clean(piece), []);
    }
    if Finish(piece) != [] {
      LosslessIsStrip(piece);
      var before, after := StripParts(piece);
      UncutPrefix(before + Strip(piece), after, Start);
      UncutGap(before, Strip(piece));
    }
  }

  lemma TotalCons(p: string, rest: seq<string>)
    ensures Total([p] + rest) == Count(p) + 1 + Total(rest) && [] + rest == rest && [p] + [] == [p]
  {
    assert ([p] + rest)[1..] == rest;
  }

  /** What splits off first, if it is the statement written first. */
  ghost predicate SplitsBack(gap: string, t: string, rest: string, others: seq<string>) {
    && Blank(gap) && t != [] && Trimmed(t) && Total(others) == Count(rest)
    && SplitFrom(gap + t + ";" + rest, Start, []) == [t] + others
  }

  /** A semicolon inside the statement would split it, and what it loses nothing makes up for. */
  lemma NotCutInside(gap: string, t: string, rest: string, others: seq<string>)
    requires SplitsBack(gap, t, rest, others)
    ensures Cut(gap + t + ";" + rest, Start) >= |gap| + |t|
  {
    hide Cut, SplitFrom, Clean, Uncut, IsSpace, Count, Total, After, Trimmed, Blank, Finish, Strip;
    var text := gap + t + ";" + rest;
    var i := Cut(text, Start);
    CutMeans(text, Start);
    if i < |gap| + |t| {
      assert text == gap + (t + ";" + rest);
      GapHasNoSemicolon(gap, t + ";" + rest, text, i);
      CutHere(gap, t, rest, text, i - |gap|);
      SplitCut(text);
      PieceInside(t, rest, others, text[..i], text[i + 1..], i - |gap|);
    }
  }

  lemma PieceInside(t: string, rest: string, others: seq<string>, piece: string, tail: string, k: nat)
    requires t != [] && Trimmed(t) && k < |t| && t[k] == ';' && Total(others) == Count(rest)
    requires Count(piece) == Count(t[..k]) < Count(t) && Count(tail) == Count(t) - Count(t[..k]) + Count(rest)
    ensures Finish(piece) + SplitFrom(tail, Start, []) != [t] + others
  {
    hide SplitFrom, Clean, IsSpace, Count, Total, Trimmed;
    if Finish(piece) + SplitFrom(tail, Start, []) == [t] + others {
      FinishOne(piece, SplitFrom(tail, Start, []), t, others);
      CountClean(piece);
      SplitTotal(tail, Start, []);
      CountNothing();
      TotalCons(t, others);
      LeadingCounts(t, k);
      assert ([t] + others)[0] == t;
      LosslessFrom(tail);
    }
  }

  lemma GapHasNoSemicolon(gap: string, t: string, text: string, i: nat)
    requires Blank(gap) && i < |text| && text == gap + t && text[i] == ';'
    ensures i >= |gap|
  {
    hide IsSpace;
    assert i < |gap| ==> text[i] == gap[i];
    SemicolonNotBlank(gap, i);
  }

  /** The pieces on either side of a semicolon in the statement, and what they count. */
  lemma CutHere(gap: string, t: string, rest: string, text: string, k: nat)
    requires Blank(gap) && k < |t| && text == gap + t + ";" + rest && text[|gap| + k] == ';'
    ensures t[k] == ';' && Count(text[..|gap| + k]) == Count(t[..k]) < Count(t)
    ensures Count(text[|gap| + k + 1..]) == Count(t) - Count(t[..k]) + Count(rest)
  {
    hide IsSpace, Count;
    var i := |gap| + k;
    assert text[..i] == gap + t[..k] && text[i + 1..] == t[k + 1..] + ";" + rest;
    assert t == t[..k] + (";" + t[k + 1..]);
    CountMarks();
    CountConcat(t[..k], ";" + t[k + 1..]);
    CountConcat(";", t[k + 1..]);
    CountConcat(t[k + 1..] + ";", rest);
    CountConcat(t[k + 1..], ";");
    CountConcat(gap, t[..k]);
    BlankHasNoHash(gap);
  }

  lemma LosslessFrom(t: string)
    ensures var r := SplitFrom(t, Start, []);
            Total(r) == Count(t) + 1 ==> r != [] && (r[0] != [] ==> r[0][0] != ';')
  {
    hide SplitFrom, Total, Count;
    if Total(SplitFrom(t, Start, [])) == Count(t) + 1 {
      LosslessStart(t);
    }
  }

  lemma CountNothing()
    ensures Count([]) == 0
  {
  }

  /** Nothing but blanks before a place in a trimmed text: it is the first. */
  lemma LeadingCounts(t: string, k: nat)
    requires t != [] && Trimmed(t) && k < |t|
    ensures Count(t[..k]) == 0 ==> k == 0
  {
    if k > 0 {
      assert t[..k][0] == t[0];
    }
  }

  lemma SemicolonNotBlank(gap: string, i: nat)
    requires Blank(gap)
    ensures i < |gap| ==> gap[i] != ';'
  {
    SemicolonCounts();
  }

  /** Either the first piece vanished or it is the first statement. */
  lemma FinishOne(piece: string, after: seq<string>, t: string, others: seq<string>)
    requires Finish(piece) + after == [t] + others
    ensures if Finish(piece) == [] then after == [t] + others else Clean(piece) == t && after == others
  {
    hide Clean;
    if Finish(piece) == [] {
      assert [] + after == after;
    } else {
      assert ([Clean(piece)] + after)[0] == Clean(piece) && ([Clean(piece)] + after)[1..] == after;
      assert ([t] + others)[0] == t && ([t] + others)[1..] == others;
    }
  }

  /** Nor can a statement go on behind its semicolon. */
  lemma NotCutBeyond(gap: string, t: string, rest: string, others: seq<string>)
    requires SplitsBack(gap, t, rest, others)
    ensures Cut(gap + t + ";" + rest, Start) <= |gap| + |t|
  {
    hide Cut, SplitFrom, Clean, Uncut, IsSpace, Count, Total;
    var text := gap + t + ";" + rest;
    var i := Cut(text, Start);
    CutMeans(text, Start);
    if i > |gap| + |t| {
      SplitCut(text);
      var k := i - |gap| - |t| - 1;
      var piece := gap + t + ";" + rest[..k];
      assert text[..i] == piece;
      if i == |text| {
        assert rest[..k] == rest && piece == text;
        LastPiece(t, others, piece);
      } else {
        assert text[i + 1..] == rest[k + 1..] && rest[k] == ';';
        PieceBeyond(t, rest, others, piece, k);
      }
      SemicolonStays(gap, t, rest[..k]);
    }
  }

  lemma LastPiece(t: string, others: seq<string>, piece: string)
    requires Finish(piece) == [t] + others
    ensures Clean(piece) == t && Total(others) == 0
  {
    hide Clean;
    assert Finish(piece) + [] == Finish(piece);
    FinishOne(piece, [], t, others);
  }

  lemma PieceBeyond(t: string, rest: string, others: seq<string>, piece: string, k: nat)
    requires k < |rest| && rest[k] == ';' && Total(others) == Count(rest)
    requires Finish(piece) + SplitFrom(rest[k + 1..], Start, []) == [t] + others
    ensures Clean(piece) == t && Count(rest[..k]) == 0
  {
    hide SplitFrom, Clean, Count, Total;
    FinishOne(piece, SplitFrom(rest[k + 1..], Start, []), t, others);
    SplitTotal(rest[k + 1..], Start, []);
    CountNothing();
    TotalCons(t, others);
    assert rest == rest[..k] + (";" + rest[k + 1..]);
    CountMarks();
    CountConcat(rest[..k], ";" + rest[k + 1..]);
    CountConcat(";", rest[k + 1..]);
  }

  /** A semicolon that a statement is written with is cleaned away from behind it only by a split. */
  lemma SemicolonStays(gap: string, t: string, after: string)
    requires Blank(gap) && t != [] && Trimmed(t) && Count(after) == 0
    ensures Clean(gap + t + ";" + after) != t
  {
    hide Strip, StripFrom, IsSpace, Count, Hashes, Blank;
    var u := t + ";";
    AllBlanks(after);
    assert u[0] == t[0] && u[|u| - 1] == ';';
    SemicolonCounts();
    assert gap + t + ";" + after == gap + u + after;
    StripAround(gap, u, after);
    BlankNothing();
    StripAround("", u, "");
    assert "" + u + "" == u;
    var v := StripFrom(u, Start);
    CountStripped(v);
    StripLoses(u, Start);
    CountMarks();
    CountConcat(t, ";");
    HashesConcat(t, ";");
    SemicolonHash();
  }

  lemma SemicolonHash()
    ensures Hashes(";") == 0
  {
    assert ";"[1..] == [];
  }

  lemma {:induction false} AllBlanks(s: string)
    requires Count(s) == 0
    ensures Blank(s)
    decreases |s|
  {
    if s != [] {
      AllBlanks(s[1..]);
      assert forall i :: 0 < i < |s| ==> s[i] == s[1..][i - 1];
    }
  }

  lemma {:induction false} StripShorter(s: string, st: Lex)
    ensures |StripFrom(s, st)| <= |s|
    decreases |s|
  {
    hide Step;
    if s != [] {
      if TopLevel(st) && CommentStarts(s) {
        StripShorter(SkipLine(s[1..]), st);
      } else {
        StripShorter(s[1..], Step(st, s[0]));
      }
    }
  }

  lemma {:induction false} UnstrippedIsTame(t: string, st: Lex)
    requires Uncut(t, st) && StripFrom(t, st) == t
    ensures Tame(t, st)
    decreases |t|
  {
    hide Step;
    if t != [] {
      if TopLevel(st) && CommentStarts(t) {
        StripShorter(SkipLine(t[1..]), st);
      } else {
        var rest := StripFrom(t[1..], Step(st, t[0]));
        assert ([t[0]] + rest)[1..] == rest;
        UnstrippedIsTame(t[1..], Step(st, t[0]));
      }
    }
  }

  lemma CutAtEnd(gap: string, t: string, rest: string, others: seq<string>)
    requires SplitsBack(gap, t, rest, others) && Cut(gap + t + ";" + rest, Start) == |gap| + |t|
    ensures Good(t)
  {
    hide Cut, SplitFrom, Uncut, IsSpace, Count, Total, Strip, StripFrom, Blank, After, Trimmed;
    var text := gap + t + ";" + rest;
    CutMeans(text, Start);
    SplitCut(text);
    assert text[..|gap| + |t|] == gap + t && text[|gap| + |t| + 1..] == rest;
    TotalCons(t, others);
    SplitTotal(rest, Start, []);
    CountNothing();
    FinishOne(gap + t, SplitFrom(rest, Start, []), t, others);
    BlankNothing();
    assert gap + t + "" == gap + t;
    StripAround(gap, t, "");
    CountStripped(StripFrom(t, Start));
    StripLoses(t, Start);
    UncutGap(gap, t);
    UnstrippedIsTame(t, Start);
    AfterConcat(Start, gap, t);
    BlankIsTame(gap);
    SomeCount(t);
  }

  lemma SomeCount(t: string)
    requires t != [] && Trimmed(t)
    ensures Count(t) > 0
  {
  }

  lemma FirstGood(gap: string, t: string, rest: string, others: seq<string>)
    requires SplitsBack(gap, t, rest, others)
    ensures Good(t)
  {
    hide SplitsBack, Cut, Good;
    NotCutInside(gap, t, rest, others);
    NotCutBeyond(gap, t, rest, others);
    CutAtEnd(gap, t, rest, others);
  }

  /** Lines that split back into their statements hold good statements only. */
  lemma {:induction false} SplitBackIsGood(gap: string, items: seq<Item>)
    requires Blank(gap) && SplitFrom(gap + Body(items), Start, []) == Statements(items)
    ensures GoodItems(items)
    decreases |items|
  {
    hide SplitFrom, Blank, Body, Good, Trimmed, Count, Total;
    GapGrows(gap);
    if items != [] {
      BodyUnfolds(items);
      var rest := if |items| == 1 then "" else "\n" + Body(items[1..]);
      var others := Statements(items[1..]);
      if items[0].Some? {
        var t := items[0].value;
        assert gap + Body(items) == gap + t + ";" + rest;
        PiecesTrimmed(gap + Body(items), Start, []);
        assert t in Statements(items);
        RestTotal(items, rest);
        FirstGood(gap, t, rest, others);
        GoodSplits(gap, t, rest);
        assert ([t] + SplitFrom(rest, Start, []))[1..] == SplitFrom(rest, Start, []) && ([t] + others)[1..] == others;
        if |items| > 1 {
          SplitBackIsGood("\n", items[1..]);
        }
      } else if |items| > 1 {
        assert gap + Body(items) == (gap + "\n") + Body(items[1..]);
        assert [] + others == others;
        SplitBackIsGood(gap + "\n", items[1..]);
      }
    }
  }

  lemma RestTotal(items: seq<Item>, rest: string)
    requires items != [] && rest == if |items| == 1 then "" else "\n" + Body(items[1..])
    ensures Total(Statements(items[1..])) == Count(rest)
  {
    hide Count, Total, Statements;
    BodyTotal(items[1..]);
    CountMarks();
    if |items| == 1 {
      assert items[1..] == [];
      NoBody();
    } else {
      CountConcat("\n", Body(items[1..]));
    }
  }

  // ---- The round trip ----

  /** Under a header line, a dump splits back into its statements, in order, if and only if no block comment can
      be read anywhere in its text and each statement is one: trimmed, its quotes closed, without a semicolon or
      a comment outside them. */
  lemma RoundTripIff(header: string, items: seq<Item>)
    requires Header(header) && items != []
    ensures Split(DumpText(header, items)) == Statements(items)
            <==> !HasBlockComment(DumpText(header, items)) && GoodItems(items)
  {
    hide Header, Good, SplitFrom, RemoveBlocks, HasBlockComment, Body, Join, Unopened;
    var body := Body(items);
    var left := RemoveBlocks(body);
    DumpIsHeaderAndBody(header, items);
    HeaderUnopened(header);
    RemovalSkips(header + "\n", body);
    SplitUnderHeader(header, left);
    RemovesIffComment(body);
    RemovalTakesFour(body);
    SplitTotal(left, Start, []);
    BodyTotal(items);
    BlankNothing();
    CountNothing();
    assert "" + body == body;
    if left == body && SplitFrom(body, Start, []) == Statements(items) {
      SplitBackIsGood("", items);
    }
    if GoodItems(items) {
      SplitItems("", items);
    }
  }

  lemma HeaderUnopened(h: string)
    requires Header(h)
    ensures Unopened(h + "\n")
  {
    hide Uncut, After;
    UnopenedSeparated(h, "\n", "");
    assert h + "\n" + "" == h + "\n";
  }

  lemma UnopenedSeparated(a: string, mid: string, b: string)
    requires Unopened(a) && Unopened(b) && mid != [] && '/' !in mid && '*' !in mid
    ensures Unopened(a + mid + b)
  {
    var t := a + mid + b;
    forall i | 0 <= i < |t| ensures !Pair(t, i, '/', '*') {
      if i < |a| {
        assert !Pair(a, i, '/', '*') && t[|a|] == mid[0];
      } else if i < |a| + |mid| {
        assert t[i] == mid[i - |a|];
      } else {
        assert !Pair(b, i - |a| - |mid|, '/', '*');
      }
    }
  }

  lemma DumpIsHeaderAndBody(header: string, items: seq<Item>)
    requires items != []
    ensures DumpText(header, items) == header + "\n" + Body(items)
  {
    assert ([header] + Lines(items))[1..] == Lines(items);
    assert Lines(items) != [];
  }

  lemma {:induction false} ItemsStatements(statements: seq<string>)
    ensures Statements(Items(statements)) == statements
    decreases |statements|
  {
    if statements != [] {
      ItemsStatements(statements[1..]);
    }
  }

  lemma {:induction false} GoodItemsIff(items: seq<Item>)
    ensures GoodItems(items) <==> AllGood(Statements(items))
    decreases |items|
  {
    hide Good;
    if items != [] {
      GoodItemsIff(items[1..]);
      var own := if items[0].Some? then [items[0].value] else [];
      AllGoodConcat(own, Statements(items[1..]));
      assert GoodItems(items) <==> (items[0].Some? ==> Good(items[0].value)) && GoodItems(items[1..]) by {
        assert forall i :: 0 < i < |items| ==> items[i] == items[1..][i - 1];
        assert forall i :: 0 <= i < |items[1..]| ==> items[1..][i] == items[i + 1];
      }
    }
  }

  lemma AllGoodConcat(a: seq<string>, b: seq<string>)
    ensures AllGood(a + b) <==> AllGood(a) && AllGood(b)
  {
    hide Good;
    assert forall i :: 0 <= i < |a| ==> (a + b)[i] == a[i];
    assert forall i :: 0 <= i < |b| ==> (a + b)[|a| + i] == b[i];
  }
}
