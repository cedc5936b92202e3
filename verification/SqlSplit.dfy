/** The statement splitter of export_import.py: quotes, escapes, top-level
    semicolons, line comments and block comments. */
module SqlSplit {
  import opened Wrappers

  // ---- Quotes and escapes ----

  /** The quote the scanner is inside of, and whether the last character was an active backslash. */
  datatype Lex = Lex(quote: Option<char>, escape: bool)

  const Start := Lex(None, false)

  function Step(st: Lex, ch: char): Lex {
    if st.escape then st.(escape := false)
    else if ch == '\\' && st.quote.Some? then st.(escape := true)
    else if st.quote.None? then if ch == '\'' || ch == '"' then st.(quote := Some(ch)) else st
    else if Some(ch) == st.quote then st.(quote := None)
    else st
  }

  predicate TopLevel(st: Lex) {
    st.quote.None? && !st.escape
  }

  function After(st: Lex, t: string): Lex
    decreases |t|
  {
    if t == [] then st else After(Step(st, t[0]), t[1..])
  }

  lemma {:induction false} AfterConcat(st: Lex, a: string, b: string)
    ensures After(st, a + b) == After(After(st, a), b)
    decreases |a|
  {
    if a == [] {
      assert a + b == b;
    } else {
      AfterConcat(Step(st, a[0]), a[1..], b);
      assert (a + b)[1..] == a[1..] + b;
    }
  }

  // ---- `str.strip` ----

  predicate IsSpace(c: char) {
    var n := c as int;
    || 9 <= n <= 13 || 28 <= n <= 32 || n == 0x85 || n == 0xA0 || n == 0x1680 || 0x2000 <= n <= 0x200A
    || n == 0x2028 || n == 0x2029 || n == 0x202F || n == 0x205F || n == 0x3000
  }

  function LStrip(s: string): (r: string)
    ensures |r| <= |s|
  {
    if s != [] && IsSpace(s[0]) then LStrip(s[1..]) else s
  }

  function RStrip(s: string): (r: string)
    ensures |r| <= |s|
  {
    if s != [] && IsSpace(s[|s| - 1]) then RStrip(s[..|s| - 1]) else s
  }

  function Strip(s: string): string {
    RStrip(LStrip(s))
  }

  /** No white space at either end. */
  predicate Trimmed(s: string) {
    s != [] ==> !IsSpace(s[0]) && !IsSpace(s[|s| - 1])
  }

  predicate Blank(s: string) {
    forall i :: 0 <= i < |s| ==> IsSpace(s[i])
  }

  // ---- `str.split` ----

  /** Text without white space. */
  predicate IsWord(w: string) {
    w != [] && forall i :: 0 <= i < |w| ==> !IsSpace(w[i])
  }

  /** `query.split()`, with `current` the word being read. */
  function WordsFrom(s: string, current: string): seq<string>
    decreases |s|
  {
    var done: seq<string> := if current == [] then [] else [current];
    if s == [] then done
    else if IsSpace(s[0]) then done + WordsFrom(s[1..], [])
    else WordsFrom(s[1..], current + [s[0]])
  }

  function Words(s: string): seq<string> {
    WordsFrom(s, [])
  }

  lemma {:induction false} WordsAreWords(s: string, current: string)
    requires current == [] || IsWord(current)
    ensures forall w :: w in WordsFrom(s, current) ==> IsWord(w)
    decreases |s|
  {
    hide IsSpace;
    if s != [] {
      if IsSpace(s[0]) {
        WordsAreWords(s[1..], []);
      } else {
        WordsAreWords(s[1..], current + [s[0]]);
      }
    }
  }

  // ---- Line comments ----

  predicate CommentStarts(s: string) {
    s != [] && (s[0] == '#' || (s[0] == '-' && |s| > 1 && s[1] == '-'))
  }

  /** Drop characters up to the next newline. */
  function SkipLine(s: string): (r: string)
    ensures |r| <= |s|
  {
    if s == [] || s[0] == '\n' then s else SkipLine(s[1..])
  }

  function StripFrom(s: string, st: Lex): string
    decreases |s|
  {
    if s == [] then []
    else if TopLevel(st) && CommentStarts(s) then StripFrom(SkipLine(s[1..]), st)
    else [s[0]] + StripFrom(s[1..], Step(st, s[0]))
  }

  function StripComments(s: string): string {
    Strip(StripFrom(s, Start))
  }

  // ---- Statements ----

  function Clean(current: string): string {
    StripComments(Strip(current))
  }

  function Finish(current: string): seq<string> {
    if Clean(current) == [] then [] else [Clean(current)]
  }

  function SplitFrom(sql: string, st: Lex, current: string): seq<string>
    decreases |sql|
  {
    if sql == [] then Finish(current)
    else if TopLevel(st) && sql[0] == ';' then Finish(current) + SplitFrom(sql[1..], Start, [])
    else SplitFrom(sql[1..], Step(st, sql[0]), current + [sql[0]])
  }

  // ---- Block comments ----

  predicate Pair(t: string, i: nat, a: char, b: char) {
    i + 2 <= |t| && t[i] == a && t[i + 1] == b
  }

  /** The first position of the pair at or after a position, or the length. */
  function FindPair(t: string, begin: nat, a: char, b: char): (i: nat)
    requires begin <= |t|
    ensures begin <= i <= |t| && (i < |t| ==> Pair(t, i, a, b))
    ensures forall k :: begin <= k < i ==> !Pair(t, k, a, b)
    decreases |t| - begin
  {
    if begin == |t| || Pair(t, begin, a, b) then begin else FindPair(t, begin + 1, a, b)
  }

  /** The opening and closing positions of the first block comment. */
  function FirstBlock(t: string): (r: Option<(nat, nat)>)
    ensures r.Some? ==> r.value.0 + 2 <= r.value.1 <= |t| - 2
  {
    var i := FindPair(t, 0, '/', '*');
    if i == |t| then None
    else
      var j := FindPair(t, i + 2, '*', '/');
      if j == |t| then None else Some((i, j))
  }

  /** The non-greedy block-comment substitution, leftmost match first. */
  function RemoveBlocks(t: string): string
    decreases |t|
  {
    var block := FirstBlock(t);
    if block.None? then t else t[..block.value.0] + RemoveBlocks(t[block.value.1 + 2..])
  }

  ghost predicate HasBlockComment(t: string) {
    exists i: nat, j: nat :: i + 2 <= j && Pair(t, i, '/', '*') && Pair(t, j, '*', '/')
  }

  function Split(sql: string): seq<string> {
    SplitFrom(RemoveBlocks(sql), Start, [])
  }

  /** A comment is there exactly when the first opening has a closing after it. */
  lemma BlockFoundIff(t: string)
    ensures FirstBlock(t).Some? <==> HasBlockComment(t)
  {
  }

  /** Block-comment removal changes exactly the texts that have one. */
  lemma RemovesIffComment(t: string)
    ensures RemoveBlocks(t) == t <==> !HasBlockComment(t)
  {
    hide HasBlockComment, Pair;
    BlockFoundIff(t);
    if FirstBlock(t).Some? {
      RemoveBlocksShrinks(t[FirstBlock(t).value.1 + 2..]);
    }
  }

  lemma {:induction false} RemoveBlocksShrinks(t: string)
    ensures |RemoveBlocks(t)| <= |t|
    decreases |t|
  {
    hide FirstBlock;
    if FirstBlock(t).Some? {
      RemoveBlocksShrinks(t[FirstBlock(t).value.1 + 2..]);
    }
  }

  // ---- Text the splitter leaves in one piece ----

  /** Scanned from st, no top-level semicolon or line comment. */
  predicate Tame(t: string, st: Lex) {
    t != [] ==> !(TopLevel(st) && (t[0] == ';' || CommentStarts(t))) && Tame(t[1..], Step(st, t[0]))
  }

  predicate NoDashSeam(a: string, b: string) {
    !(a != [] && b != [] && a[|a| - 1] == '-' && b[0] == '-')
  }

  lemma {:induction false} TameConcat(a: string, b: string, st: Lex)
    requires Tame(a, st) && Tame(b, After(st, a)) && NoDashSeam(a, b)
    ensures Tame(a + b, st)
    decreases |a|
  {
    if a == [] {
      assert a + b == b;
    } else {
      assert (a + b)[1..] == a[1..] + b;
      TameConcat(a[1..], b, Step(st, a[0]));
    }
  }

  /** A semicolon after tame text that closes its quotes ends the statement there and nowhere earlier. */
  lemma {:induction false} SplitTame(t: string, st: Lex, current: string, rest: string)
    requires Tame(t, st) && TopLevel(After(st, t))
    ensures SplitFrom(t + ";" + rest, st, current) == Finish(current + t) + SplitFrom(rest, Start, [])
    decreases |t|
  {
    if t == [] {
      assert t + ";" + rest == ";" + rest && current + t == current;
      assert (";" + rest)[1..] == rest;
    } else {
      assert (t + ";" + rest)[1..] == t[1..] + ";" + rest;
      assert current + [t[0]] + t[1..] == current + t;
      SplitTame(t[1..], Step(st, t[0]), current + [t[0]], rest);
    }
  }

  /** Comment stripping leaves tame text alone. */
  lemma {:induction false} StripTame(t: string, st: Lex)
    requires Tame(t, st)
    ensures StripFrom(t, st) == t
    decreases |t|
  {
    if t != [] {
      StripTame(t[1..], Step(st, t[0]));
    }
  }

  lemma StripTrimmed(s: string)
    requires Trimmed(s)
    ensures Strip(s) == s
  {
  }

  lemma {:induction false} LStripBlank(gap: string, s: string)
    requires Blank(gap) && Trimmed(s)
    ensures LStrip(gap + s) == s
    decreases |gap|
  {
    if gap == [] {
      assert gap + s == s;
    } else {
      assert (gap + s)[1..] == gap[1..] + s;
      LStripBlank(gap[1..], s);
    }
  }

  lemma {:induction false} BlankVanishes(gap: string)
    requires Blank(gap)
    ensures Finish(gap) == []
  {
    LStripBlank(gap, []);
    assert gap + [] == gap;
  }

  lemma CleanTame(gap: string, t: string)
    requires Blank(gap) && Tame(t, Start) && Trimmed(t)
    ensures Clean(gap + t) == t
  {
    hide StripFrom, Tame, IsSpace;
    LStripBlank(gap, t);
    StripTrimmed(t);
    StripTame(t, Start);
  }

  /** A blank gap, one tame statement and its semicolon, and whatever follows. */
  lemma SplitStatement(gap: string, t: string, rest: string)
    requires Blank(gap) && Tame(t, Start) && TopLevel(After(Start, t)) && Trimmed(t) && t != []
    ensures SplitFrom(gap + t + ";" + rest, Start, []) == [t] + SplitFrom(rest, Start, [])
  {
    hide Clean, SplitFrom, After;
    BlankIsTame(gap);
    TameConcat(gap, t, Start);
    AfterConcat(Start, gap, t);
    SplitTame(gap + t, Start, [], rest);
    assert [] + (gap + t) == gap + t;
    CleanTame(gap, t);
  }

  lemma {:induction false} BlankIsTame(gap: string)
    requires Blank(gap)
    ensures Tame(gap, Start) && After(Start, gap) == Start
    ensures gap != [] ==> gap[|gap| - 1] != '-'
    decreases |gap|
  {
    if gap != [] {
      BlankIsTame(gap[1..]);
    }
  }

  // ---- The source's loops ----

  /** `_strip_line_comments`. */
  method StripLineComments(stmt: string) returns (r: string)
    ensures r == StripComments(stmt)
  {
    hide CommentStarts, Step, Strip;
    var result := [];
    var st := Start;
    var i := 0;
    assert stmt[0..] == stmt;
    while i < |stmt|
      invariant i <= |stmt|
      invariant StripFrom(stmt, Start) == result + StripFrom(stmt[i..], st)
    {
      assert stmt[i..][1..] == stmt[i + 1..];
      if TopLevel(st) && CommentStarts(stmt[i..]) {
        i := i + 1;
        ghost var rest := stmt[i..];
        while i < |stmt| && stmt[i] != '\n'
          invariant i <= |stmt| && SkipLine(rest) == SkipLine(stmt[i..])
        {
          assert stmt[i..][1..] == stmt[i + 1..];
          i := i + 1;
        }
        assert SkipLine(stmt[i..]) == stmt[i..];
      } else {
        ghost var tail := StripFrom(stmt[i + 1..], Step(st, stmt[i]));
        assert result + ([stmt[i]] + tail) == (result + [stmt[i]]) + tail;
        result := result + [stmt[i]];
        st := Step(st, stmt[i]);
        i := i + 1;
      }
    }
    assert stmt[i..] == [] && result + [] == result;
    return Strip(result);
  }

  /** `_split_statements`. */
  method SplitStatements(sql: string) returns (statements: seq<string>)
    ensures statements == Split(sql)
  {
    hide Step, Strip, StripComments, RemoveBlocks;
    var text := RemoveBlocks(sql);
    statements := [];
    var current, st := [], Start;
    var i := 0;
    assert text[0..] == text;
    while i < |text|
      invariant i <= |text|
      invariant SplitFrom(text, Start, []) == statements + SplitFrom(text[i..], st, current)
    {
      assert text[i..][1..] == text[i + 1..];
      if TopLevel(st) && text[i] == ';' {
        ghost var tail := SplitFrom(text[i + 1..], Start, []);
        assert statements + (Finish(current) + tail) == (statements + Finish(current)) + tail;
        var stmt := StripLineComments(Strip(current));
        if stmt != [] {
          statements := statements + [stmt];
        } else {
          assert statements + [] == statements;
        }
        current, st := [], Start;
      } else {
        current := current + [text[i]];
        st := Step(st, text[i]);
      }
      i := i + 1;
    }
    assert text[i..] == [];
    var stmt := StripLineComments(Strip(current));
    if stmt != [] {
      statements := statements + [stmt];
    } else {
      assert statements + [] == statements;
    }
  }
}
