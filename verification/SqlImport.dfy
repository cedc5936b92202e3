/** Reading a dumped INSERT back with the VALUES reader of parser.py: what each
    value becomes, and exactly which rows come back. */
module SqlImport {
  import opened Wrappers
  import opened SqlSplit
  import opened SqlDump
  import opened SqlPieces

  /** `int` or, with a dot in the text, `float`: the text Python prints for the number, if it is one. */
  type Numbers = string -> Option<string>

  // ---- The reader ----

  datatype Reader = Reader(values: seq<string>, current: string, quote: Option<char>, escape: bool)

  const Begin := Reader([], [], None, false)

  /** What a character stands for behind a backslash. */
  function Escaped(c: char): string {
    if c == 'n' then "\n" else if c == 'r' then "\r" else if c == 't' then "\t"
    else if c == '\\' || c == '\'' || c == '"' then [c]
    else ['\\', c]
  }

  function ReadChar(r: Reader, c: char): Reader {
    if r.escape then r.(current := r.current + Escaped(c), escape := false)
    else if c == '\\' && r.quote.Some? then r.(escape := true)
    else if (c == '\'' || c == '"') && r.quote.None? then r.(quote := Some(c))
    else if Some(c) == r.quote then r.(values := r.values + [r.current], current := [], quote := None)
    else if c == ',' && r.quote.None? then
      r.(values := if r.current != [] then r.values + [Strip(r.current)] else r.values, current := [])
    else r.(current := r.current + [c])
  }

  function ReadAll(r: Reader, s: string): Reader
    decreases |s|
  {
    if s == [] then r else ReadAll(ReadChar(r, s[0]), s[1..])
  }

  function Finished(r: Reader): seq<string> {
    if r.current != [] && Strip(r.current) != [] then r.values + [Strip(r.current)] else r.values
  }

  predicate Enclosed(v: string, q: char) {
    v != [] && v[0] == q && v[|v| - 1] == q
  }

  /** `v[1:-1]`. */
  function Inner(v: string): (r: string)
    ensures |r| < |v| || v == []
  {
    if |v| < 2 then [] else v[1..|v| - 1]
  }

  /** `s.replace(q + q, q)`. */
  function Undoubled(s: string, q: char): (r: string)
    ensures |r| <= |s|
  {
    if |s| >= 2 && s[0] == q && s[1] == q then [q] + Undoubled(s[2..], q)
    else if s == [] then []
    else [s[0]] + Undoubled(s[1..], q)
  }

  /** `v.upper() == 'NULL'`. */
  predicate IsNull(v: string) {
    |v| == 4 && v[0] in "nN" && v[1] in "uU" && v[2] in "lL" && v[3] in "lL"
  }

  function Convert(number: Numbers, v: string): Value {
    var w := Strip(v);
    if Enclosed(w, '\'') || Enclosed(w, '"') then Text(Undoubled(Inner(w), w[0]))
    else if IsNull(w) then Null
    else if number(w).Some? then Number(number(w).value)
    else Text(w)
  }

  function ConvertAll(number: Numbers, values: seq<string>): (r: seq<Value>)
    ensures |r| == |values| && forall i :: 0 <= i < |values| ==> r[i] == Convert(number, values[i])
  {
    if values == [] then [] else [Convert(number, values[0])] + ConvertAll(number, values[1..])
  }

  /** `_parse_values`. */
  function ReadValues(number: Numbers, s: string): seq<Value> {
    ConvertAll(number, Finished(ReadAll(Begin, s)))
  }

  // ---- The source's loops ----

  method ParseValues(number: Numbers, text: string) returns (result: seq<Value>)
    ensures result == ReadValues(number, text)
  {
    hide Strip, Escaped, Convert;
    var values: seq<string>, current: string, inString, stringChar, escape := [], [], false, ' ', false;
    var i := 0;
    assert text[0..] == text;
    while i < |text|
      invariant i <= |text| && (escape ==> inString) && (inString ==> stringChar == '\'' || stringChar == '"')
      invariant ReadAll(Begin, text)
                == ReadAll(Reader(values, current, if inString then Some(stringChar) else None, escape), text[i..])
    {
      var c := text[i];
      assert text[i..][1..] == text[i + 1..];
      i := i + 1;
      if escape {
        current := current + Escaped(c);
        escape := false;
      } else if c == '\\' && inString {
        escape := true;
      } else if (c == '\'' || c == '"') && !inString {
        inString, stringChar := true, c;
      } else if inString && c == stringChar {
        inString := false;
        values := values + [current];
        current := [];
      } else if c == ',' && !inString {
        if current != [] {
          values := values + [Strip(current)];
        }
        current := [];
      } else {
        current := current + [c];
      }
    }
    assert text[i..] == [];
    if current != [] {
      var tail := Strip(current);
      if tail != [] {
        values := values + [tail];
      }
    }
    result := [];
    i := 0;
    while i < |values|
      invariant i <= |values| && |result| == i && forall k :: 0 <= k < i ==> result[k] == Convert(number, values[k])
    {
      result := result + [Convert(number, values[i])];
      i := i + 1;
    }
  }

  // ---- What a dumped value is read as ----

  /** The text between the single quotes of s. */
  function Pieces(s: string): (p: seq<string>)
    ensures |p| > 0
  {
    if s == [] then [[]]
    else
      var rest := Pieces(s[1..]);
      if s[0] == '\'' then [[]] + rest else [[s[0]] + rest[0]] + rest[1..]
  }

  /** A string is read as one value for each piece between its single quotes. */
  function Restored(number: Numbers, v: Value): seq<Value> {
    match v
    case Null => [Null]
    case Number(text) => [Convert(number, text)]
    case Text(s) => ConvertAll(number, Pieces(s))
    case Json(s) => ConvertAll(number, Pieces(s))
  }

  function AllRestored(number: Numbers, values: seq<Value>): seq<Value> {
    if values == [] then [] else Restored(number, values[0]) + AllRestored(number, values[1..])
  }

  /** A printed number has no quotes and no commas, and is not blank. */
  predicate PrintedNumber(v: Value) {
    v.Number? ==> Strip(v.text) != [] && forall i :: 0 <= i < |v.text| ==> v.text[i] !in "'\","
  }

  function QuotedAll(values: seq<Value>): (q: seq<string>)
    ensures |q| == |values| && forall i :: 0 <= i < |values| ==> q[i] == QuoteValue(values[i])
  {
    if values == [] then [] else [QuoteValue(values[0])] + QuotedAll(values[1..])
  }

  lemma {:induction false} ReadConcat(r: Reader, a: string, b: string)
    ensures ReadAll(r, a + b) == ReadAll(ReadAll(r, a), b)
    decreases |a|
  {
    hide ReadChar;
    if a == [] {
      assert a + b == b;
    } else {
      assert (a + b)[1..] == a[1..] + b;
      ReadConcat(ReadChar(r, a[0]), a[1..], b);
    }
  }

  lemma ReadOne(r: Reader, c: char, rest: string)
    ensures ReadAll(r, [c] + rest) == ReadAll(ReadChar(r, c), rest)
  {
    assert ([c] + rest)[1..] == rest;
  }

  /** The escapes of the dump are undone, but a doubled quote ends one value and begins another. */
  lemma {:induction false} ReadUnits(values: seq<string>, current: string, s: string, lines: bool)
    ensures ReadAll(Reader(values, current, Some('\''), false), Units(s, lines) + "'")
            == Reader(values + [current + Pieces(s)[0]] + Pieces(s)[1..], [], None, false)
    decreases |s|
  {
    hide *;
    var r := Reader(values, current, Some('\''), false);
    if s == [] {
      NoUnits(lines);
      ReadOne(r, '\'', []);
      CloseQuote(values, current);
      assert current + [] == current && values + [current] + [] == values + [current];
      assert ['\''] + [] == [] + "'";
    } else {
      var u, rest, p := Unit(s[0], lines), Units(s[1..], lines) + "'", Pieces(s[1..]);
      UnitsUnfold(s, lines);
      assert Units(s, lines) + "'" == u + rest;
      ReadConcat(r, u, rest);
      ReadUnit(values, current, s[0], lines);
      PiecesUnfold(s);
      if s[0] == '\'' {
        ReadUnits(values + [current], [], s[1..], lines);
        assert [] + p[0] == p[0] && current + [] == current;
        assert values + [current] + [p[0]] + p[1..] == values + [current] + p;
      } else {
        ReadUnits(values, current + [s[0]], s[1..], lines);
        assert current + [s[0]] + p[0] == current + ([s[0]] + p[0]);
      }
    }
  }

  lemma NoUnits(lines: bool)
    ensures Units([], lines) == [] && Pieces([]) == [[]]
  {
  }

  lemma UnitsUnfold(s: string, lines: bool)
    requires s != []
    ensures Units(s, lines) == Unit(s[0], lines) + Units(s[1..], lines)
  {
  }

  lemma PiecesUnfold(s: string)
    requires s != []
    ensures var rest := Pieces(s[1..]);
            && |rest| > 0
            && (s[0] == '\'' ==> Pieces(s)[0] == [] && Pieces(s)[1..] == rest)
            && (s[0] != '\'' ==> Pieces(s)[0] == [s[0]] + rest[0] && Pieces(s)[1..] == rest[1..])
  {
  }

  lemma CloseQuote(values: seq<string>, current: string)
    ensures ReadAll(ReadChar(Reader(values, current, Some('\''), false), '\''), [])
            == Reader(values + [current], [], None, false)
  {
  }

  lemma ReadUnit(values: seq<string>, current: string, c: char, lines: bool)
    ensures ReadAll(Reader(values, current, Some('\''), false), Unit(c, lines))
            == if c == '\'' then Reader(values + [current], [], Some('\''), false)
               else Reader(values, current + [c], Some('\''), false)
  {
    hide Strip;
    var r := Reader(values, current, Some('\''), false);
    var u := Unit(c, lines);
    if |u| == 2 {
      assert u == [u[0]] + ([u[1]] + []);
      ReadOne(r, u[0], [u[1]] + []);
      ReadOne(ReadChar(r, u[0]), u[1], []);
    } else {
      assert u == [u[0]] + [];
      ReadOne(r, u[0], []);
    }
  }

  /** Text without quotes and commas is kept as it is. */
  lemma {:induction false} ReadBare(values: seq<string>, current: string, s: string)
    requires forall i :: 0 <= i < |s| ==> s[i] !in "'\","
    ensures ReadAll(Reader(values, current, None, false), s) == Reader(values, current + s, None, false)
    decreases |s|
  {
    hide Strip;
    if s == [] {
      assert current + s == current;
    } else {
      assert s[0] !in "'\",";
      forall i | 0 <= i < |s[1..]| ensures s[1..][i] !in "'\"," {
        assert s[i + 1] !in "'\",";
      }
      ReadBare(values, current + [s[0]], s[1..]);
      assert current + [s[0]] + s[1..] == current + s;
    }
  }

  // ---- Reading a value list ----

  /** The texts a value is read as, `lead` being the blank left from the separator. */
  function Tokens(lead: string, v: Value): seq<string> {
    match v
    case Null => [Strip(lead + "NULL")]
    case Number(text) => [Strip(lead + text)]
    case Text(s) => [lead + Pieces(s)[0]] + Pieces(s)[1..]
    case Json(s) => [lead + Pieces(s)[0]] + Pieces(s)[1..]
  }

  function AllTokens(lead: string, values: seq<Value>): seq<string>
    decreases |values|
  {
    if values == [] then [] else Tokens(lead, values[0]) + AllTokens(" ", values[1..])
  }

  /** The reader behind a value: a quoted one is complete, another one is still being read. */
  ghost predicate Behind(r: Reader, before: seq<string>, tokens: seq<string>) {
    && r.quote.None? && !r.escape
    && (if r.current == [] then r.values == before + tokens
        else Strip(r.current) != [] && r.values + [Strip(r.current)] == before + tokens)
  }

  lemma ReadValue(before: seq<string>, lead: string, v: Value)
    requires PrintedNumber(v) && Blank(lead)
    ensures Behind(ReadAll(Reader(before, lead, None, false), QuoteValue(v)), before, Tokens(lead, v))
  {
    hide *;
    QuotedForm(v);
    match v {
      case Null => ReadBare(before, lead, "NULL"); NullIsBare(); BareBehind(before, lead, "NULL");
      case Number(text) => NumberIsBare(v); ReadBare(before, lead, text); BareBehind(before, lead, text);
      case Text(s) => ReadQuoted(before, lead, s, true);
      case Json(s) => ReadQuoted(before, lead, s, false);
    }
    TokensOf(lead, v);
  }

  lemma TokensOf(lead: string, v: Value)
    ensures v.Null? ==> Tokens(lead, v) == [Strip(lead + "NULL")]
    ensures v.Number? ==> Tokens(lead, v) == [Strip(lead + v.text)]
    ensures v.Text? ==> Tokens(lead, v) == [lead + Pieces(v.s)[0]] + Pieces(v.s)[1..]
    ensures v.Json? ==> Tokens(lead, v) == [lead + Pieces(v.text)[0]] + Pieces(v.text)[1..]
  {
  }

  lemma NullIsBare()
    ensures forall i :: 0 <= i < |"NULL"| ==> "NULL"[i] !in "'\","
    ensures Strip("NULL") != []
  {
    assert !IsSpace('N') && !IsSpace('L');
    var t := "NULL";
    assert t[0] == 'N' && t[3] == 'L';
    StripTrimmed(t);
  }

  lemma NumberIsBare(v: Value)
    requires v.Number? && PrintedNumber(v)
    ensures Strip(v.text) != [] && forall i :: 0 <= i < |v.text| ==> v.text[i] !in "'\","
  {
  }

  lemma QuotedForm(v: Value)
    ensures v.Null? ==> QuoteValue(v) == "NULL"
    ensures v.Number? ==> QuoteValue(v) == v.text
    ensures v.Text? ==> QuoteValue(v) == "'" + Units(v.s, true) + "'"
    ensures v.Json? ==> QuoteValue(v) == "'" + Units(v.text, false) + "'"
  {
    if v.Text? {
      EscapeIsUnits(v.s);
    } else if v.Json? {
      EscapeIsUnits(v.text);
    }
  }

  lemma BareBehind(before: seq<string>, lead: string, s: string)
    requires Blank(lead) && Strip(s) != []
    ensures Behind(Reader(before, lead + s, None, false), before, [Strip(lead + s)])
  {
    hide Strip, Blank;
    StripIgnoresGap(lead, s);
    StripNothing();
  }

  lemma StripNothing()
    ensures Strip([]) == []
  {
  }

  lemma ReadQuoted(before: seq<string>, lead: string, s: string, lines: bool)
    ensures Behind(ReadAll(Reader(before, lead, None, false), "'" + Units(s, lines) + "'"), before,
                   [lead + Pieces(s)[0]] + Pieces(s)[1..])
  {
    hide Units, Pieces, Strip;
    var r := Reader(before, lead, None, false);
    assert "'" + Units(s, lines) + "'" == ['\''] + (Units(s, lines) + "'");
    ReadOne(r, '\'', Units(s, lines) + "'");
    ReadUnits(before, lead, s, lines);
    assert before + [lead + Pieces(s)[0]] + Pieces(s)[1..] == before + ([lead + Pieces(s)[0]] + Pieces(s)[1..]);
  }

  /** The separator ends what is being read and leaves its blank. */
  lemma ReadSeparator(r: Reader, before: seq<string>, tokens: seq<string>)
    requires Behind(r, before, tokens)
    ensures ReadAll(r, ", ") == Reader(before + tokens, " ", None, false)
  {
    hide Strip;
    assert ", " == [','] + ([' '] + []);
    ReadOne(r, ',', [' '] + []);
    ReadOne(ReadChar(r, ','), ' ', []);
    assert [] + [' '] == " ";
  }

  lemma {:induction false} ReadList(before: seq<string>, lead: string, values: seq<Value>)
    requires Blank(lead) && values != [] && forall v :: v in values ==> PrintedNumber(v)
    ensures Behind(ReadAll(Reader(before, lead, None, false), Join(QuotedAll(values), ", ")), before,
                   AllTokens(lead, values))
    decreases |values|
  {
    hide *;
    var r, v, rest := Reader(before, lead, None, false), values[0], values[1..];
    var first, tail := QuoteValue(v), Join(QuotedAll(rest), ", ");
    ListUnfold(lead, values);
    ReadValue(before, lead, v);
    if rest != [] {
      var r1 := ReadAll(r, first);
      ReadConcat(r, first, ", " + tail);
      ReadConcat(r1, ", ", tail);
      ReadSeparator(r1, before, Tokens(lead, v));
      OneBlank();
      ReadList(before + Tokens(lead, v), " ", rest);
      BehindMore(ReadAll(Reader(before + Tokens(lead, v), " ", None, false), tail), before, Tokens(lead, v),
                 AllTokens(" ", rest));
    }
  }

  lemma OneBlank()
    ensures Blank(" ") && Blank("")
  {
  }

  lemma BehindMore(r: Reader, before: seq<string>, tokens: seq<string>, more: seq<string>)
    requires Behind(r, before + tokens, more)
    ensures Behind(r, before, tokens + more)
  {
    assert before + tokens + more == before + (tokens + more);
  }

  lemma ListUnfold(lead: string, values: seq<Value>)
    requires values != []
    ensures |values| == 1 ==> Join(QuotedAll(values), ", ") == QuoteValue(values[0])
    ensures |values| == 1 ==> AllTokens(lead, values) == Tokens(lead, values[0])
    ensures |values| > 1 ==>
              Join(QuotedAll(values), ", ") == QuoteValue(values[0]) + (", " + Join(QuotedAll(values[1..]), ", "))
    ensures AllTokens(lead, values) == Tokens(lead, values[0]) + AllTokens(" ", values[1..])
  {
    hide QuoteValue, Tokens;
    assert QuotedAll(values)[1..] == QuotedAll(values[1..]);
    if |values| == 1 {
      assert values[1..] == [];
      assert Tokens(lead, values[0]) + [] == Tokens(lead, values[0]);
    }
  }

  /** Conversion looks at the stripped text only. */
  lemma ConvertStripped(number: Numbers, lead: string, s: string)
    requires Blank(lead)
    ensures Convert(number, lead + s) == Convert(number, s)
    ensures Convert(number, Strip(lead + s)) == Convert(number, s)
  {
    hide Strip, Enclosed, IsNull, Undoubled, Inner;
    StripIgnoresGap(lead, s);
    CountStripped(s);
    StripTrimmed(Strip(s));
  }

  lemma TokensRestored(number: Numbers, lead: string, v: Value)
    requires Blank(lead)
    ensures ConvertAll(number, Tokens(lead, v)) == Restored(number, v)
  {
    hide Convert, Pieces, Strip;
    match v {
      case Null => ConvertStripped(number, lead, "NULL"); NullIsNull(number);
      case Number(text) => ConvertStripped(number, lead, text);
      case Text(s) => ConvertStripped(number, lead, Pieces(s)[0]);
      case Json(s) => ConvertStripped(number, lead, Pieces(s)[0]);
    }
  }

  lemma NullIsNull(number: Numbers)
    ensures Convert(number, "NULL") == Null
  {
    var t := "NULL";
    assert !IsSpace('N') && !IsSpace('L') && t[0] == 'N' && t[3] == 'L' && t[1] == 'U' && t[2] == 'L';
    StripTrimmed(t);
  }

  lemma ConvertConcat(number: Numbers, a: seq<string>, b: seq<string>)
    ensures ConvertAll(number, a + b) == ConvertAll(number, a) + ConvertAll(number, b)
  {
  }

  lemma {:induction false} AllTokensRestored(number: Numbers, lead: string, values: seq<Value>)
    requires Blank(lead)
    ensures ConvertAll(number, AllTokens(lead, values)) == AllRestored(number, values)
    decreases |values|
  {
    hide Tokens, Restored, Convert, Blank;
    if values != [] {
      OneBlank();
      TokensRestored(number, lead, values[0]);
      AllTokensRestored(number, " ", values[1..]);
      ConvertConcat(number, Tokens(lead, values[0]), AllTokens(" ", values[1..]));
    }
  }

  /** A dumped value list is read as what its values are read as, one after the other. */
  lemma ValuesAreRestored(number: Numbers, values: seq<Value>)
    requires forall v :: v in values ==> PrintedNumber(v)
    ensures ReadValues(number, Join(QuotedAll(values), ", ")) == AllRestored(number, values)
  {
    hide Convert, Restored, Tokens, Strip, PrintedNumber;
    OneBlank();
    if values == [] {
      assert QuotedAll(values) == [];
    } else {
      ReadList([], "", values);
      assert Begin == Reader([], "", None, false);
      assert [] + AllTokens("", values) == AllTokens("", values);
    }
    AllTokensRestored(number, "", values);
  }

  // ---- Which values come back ----

  /** A string comes back unless it has a single quote, white space at its ends, or double quotes around it, or
      reads as NULL or as a number; a number unless its text does not read as that number; a JSON value never does. */
  predicate ComesBack(number: Numbers, v: Value) {
    match v
    case Null => true
    case Number(text) => Convert(number, text) == v
    case Text(s) => '\'' !in s && Trimmed(s) && !Enclosed(s, '"') && !IsNull(s) && number(s).None?
    case Json(_) => false
  }

  lemma {:induction false} OnePiece(s: string)
    ensures '\'' !in s ==> Pieces(s) == [s]
    ensures '\'' in s ==> |Pieces(s)| > 1
    decreases |s|
  {
    if s != [] {
      OnePiece(s[1..]);
      assert s == [s[0]] + s[1..];
    }
  }

  lemma ConvertIsText(number: Numbers, s: string)
    requires '\'' !in s
    ensures Convert(number, s) == Text(s) <==> ComesBack(number, Text(s))
  {
    hide Strip, Trimmed;
    var before, after := StripParts(s);
    var w := Strip(s);
    CountStripped(s);
    if Trimmed(s) {
      StripTrimmed(s);
    }
    assert forall i :: 0 <= i < |w| ==> w[i] == s[|before| + i];
  }

  lemma RestoredIff(number: Numbers, v: Value)
    ensures Restored(number, v) == [v] <==> ComesBack(number, v)
  {
    hide Convert, Pieces, Trimmed, Enclosed, IsNull;
    match v {
      case Null =>
      case Number(text) =>
      case Text(s) =>
        OnePiece(s);
        if '\'' !in s {
          ConvertIsText(number, s);
        }
      case Json(s) =>
        OnePiece(s);
        NeverJson(number, Pieces(s)[0]);
    }
  }

  lemma NeverJson(number: Numbers, s: string)
    ensures !Convert(number, s).Json?
  {
  }

  // ---- A dumped row ----

  /** The values of a row under its columns, in their order. */
  function Values(columns: seq<string>, row: Row): seq<Value> {
    if columns == [] then []
    else (if columns[0] in row then [row[columns[0]]] else []) + Values(columns[1..], row)
  }

  lemma {:induction false} QuotedIs(columns: seq<string>, row: Row)
    ensures Quoted(columns, row) == QuotedAll(Values(columns, row))
    decreases |columns|
  {
    hide QuoteValue;
    if columns != [] {
      QuotedIs(columns[1..], row);
    }
  }

  /** Where the columns that the row has stand, counting from `first`. */
  function Places(columns: seq<string>, row: Row, first: nat): seq<nat>
    decreases |columns|
  {
    if columns == [] then []
    else (if columns[0] in row then [first] else []) + Places(columns[1..], row, first + 1)
  }

  lemma PlacesUnfold(columns: seq<string>, row: Row, first: nat)
    requires columns != []
    ensures var rest := Places(columns[1..], row, first + 1);
            if columns[0] in row then
              && Places(columns, row, first) == [first] + rest
              && Present(columns, row) == [columns[0]] + Present(columns[1..], row)
              && Values(columns, row) == [row[columns[0]]] + Values(columns[1..], row)
            else
              && Places(columns, row, first) == rest
              && Present(columns, row) == Present(columns[1..], row)
              && Values(columns, row) == Values(columns[1..], row)
  {
    var rest := Places(columns[1..], row, first + 1);
    assert [] + rest == rest && [] + Present(columns[1..], row) == Present(columns[1..], row);
    assert [] + Values(columns[1..], row) == Values(columns[1..], row);
  }

  lemma {:induction false} PlacesAre(columns: seq<string>, row: Row, first: nat)
    ensures var places := Places(columns, row, first);
            && |Present(columns, row)| == |Values(columns, row)| == |places|
            && (forall k :: 0 <= k < |places| ==> first <= places[k] < first + |columns|)
            && (forall k :: 0 <= k < |places| ==>
                  && columns[places[k] - first] in row && Present(columns, row)[k] == columns[places[k] - first]
                  && Values(columns, row)[k] == row[columns[places[k] - first]])
    decreases |columns|
  {
    if columns != [] {
      PlacesUnfold(columns, row, first);
      PlacesAre(columns[1..], row, first + 1);
      hide Places, Present, Values;
      var places, rest := Places(columns, row, first), Places(columns[1..], row, first + 1);
      var own := if columns[0] in row then 1 else 0;
      forall k | 0 <= k < |places|
        ensures first <= places[k] < first + |columns| && columns[places[k] - first] in row
        ensures k < |Present(columns, row)| && Present(columns, row)[k] == columns[places[k] - first]
        ensures k < |Values(columns, row)| && Values(columns, row)[k] == row[columns[places[k] - first]]
      {
        if k >= own {
          assert places[k] == rest[k - own] && columns[1..][rest[k - own] - first - 1] == columns[places[k] - first];
        }
      }
    }
  }

  lemma {:induction false} PlacesIncrease(columns: seq<string>, row: Row, first: nat)
    ensures var places := Places(columns, row, first);
            && (forall k :: 0 <= k < |places| ==> places[k] >= first)
            && (forall j, k :: 0 <= j < k < |places| ==> places[j] < places[k])
    decreases |columns|
  {
    if columns != [] {
      PlacesUnfold(columns, row, first);
      PlacesIncrease(columns[1..], row, first + 1);
      hide Places;
    }
  }

  lemma {:induction false} PlaceOf(columns: seq<string>, row: Row, first: nat, i: nat)
    requires i < |columns| && columns[i] in row
    ensures first + i in Places(columns, row, first)
    decreases i
  {
    if i > 0 {
      PlaceOf(columns[1..], row, first + 1, i - 1);
    }
  }

  /** Names and values of a dumped INSERT belong together: they are the row's, for the table's columns the row has,
      in the order of the columns. */
  lemma PairsAre(columns: seq<string>, row: Row) returns (places: seq<nat>)
    ensures |Present(columns, row)| == |Values(columns, row)| == |places|
    ensures forall k :: 0 <= k < |places| ==>
              && places[k] < |columns| && columns[places[k]] in row
              && Present(columns, row)[k] == columns[places[k]] && Values(columns, row)[k] == row[columns[places[k]]]
    ensures forall j, k :: 0 <= j < k < |places| ==> places[j] < places[k]
    ensures forall i :: 0 <= i < |columns| && columns[i] in row ==> i in places
  {
    hide Places, Present, Values;
    places := Places(columns, row, 0);
    PlacesAre(columns, row, 0);
    PlacesIncrease(columns, row, 0);
    forall i | 0 <= i < |columns| && columns[i] in row ensures i in places {
      PlaceOf(columns, row, 0, i);
    }
  }

  /** The INSERT written for a row lists columns and, in the same order, the quoted values they have in the row. */
  lemma InsertListsPairs(t: Table, row: Row) returns (names: seq<string>, values: seq<Value>, places: seq<nat>)
    ensures InsertStatement(t, row) == "INSERT INTO " + t.name + " (" + Join(names, ", ") + ") VALUES ("
                                       + Join(QuotedAll(values), ", ") + ")"
    ensures |names| == |values| == |places|
    ensures forall k :: 0 <= k < |places| ==>
              places[k] < |t.columns| && names[k] == t.columns[places[k]] && names[k] in row
              && values[k] == row[names[k]]
    ensures forall j, k :: 0 <= j < k < |places| ==> places[j] < places[k]
    ensures forall i :: 0 <= i < |t.columns| && t.columns[i] in row ==> i in places
  {
    hide QuoteValue, Join;
    names, values := Present(t.columns, row), Values(t.columns, row);
    QuotedIs(t.columns, row);
    places := PairsAre(t.columns, row);
  }

  /** The columns of an INSERT with their values; a column without a value is left out. */
  function RowFrom(names: seq<string>, values: seq<Value>): Row {
    if names == [] || values == [] then map[] else map[names[0] := values[0]] + RowFrom(names[1..], values[1..])
  }

  function Restricted(row: Row, columns: seq<string>): Row {
    map c | c in row && c in columns :: row[c]
  }

  predicate AllDistinct(s: seq<string>) {
    forall i, j :: 0 <= i < j < |s| ==> s[i] != s[j]
  }

  lemma {:induction false} RowFromAt(names: seq<string>, values: seq<Value>, k: nat)
    requires AllDistinct(names) && k < |names| && k < |values|
    ensures names[k] in RowFrom(names, values) && RowFrom(names, values)[names[k]] == values[k]
    decreases k
  {
    if k == 0 {
      OnlyNamed(names[1..], values[1..], names[0]);
    } else {
      assert AllDistinct(names[1..]) by { assert forall i :: 0 <= i < |names[1..]| ==> names[1..][i] == names[i + 1]; }
      RowFromAt(names[1..], values[1..], k - 1);
    }
  }

  lemma {:induction false} OnlyNamed(names: seq<string>, values: seq<Value>, c: string)
    requires c !in names
    ensures c !in RowFrom(names, values)
    decreases |names|
  {
    if names != [] && values != [] {
      OnlyNamed(names[1..], values[1..], c);
    }
  }

  lemma {:induction false} ReadBackIf(number: Numbers, values: seq<Value>)
    requires forall v :: v in values ==> ComesBack(number, v)
    ensures AllRestored(number, values) == values
    decreases |values|
  {
    hide Restored, ComesBack;
    if values != [] {
      RestoredIff(number, values[0]);
      ReadBackIf(number, values[1..]);
      assert [values[0]] + values[1..] == values;
    }
  }

  /** The first value that does not come back is read as something else. */
  lemma FirstDiffers(number: Numbers, v: Value)
    ensures Restored(number, v) != [] && (!ComesBack(number, v) ==> Restored(number, v)[0] != v)
  {
    hide Convert, Pieces, Trimmed, Enclosed, IsNull;
    RestoredIff(number, v);
    match v {
      case Null =>
      case Number(text) =>
      case Text(s) =>
        OnePiece(s);
        ShorterPiece(s);
        ConvertShorter(number, Pieces(s)[0]);
      case Json(s) =>
        NeverJson(number, Pieces(s)[0]);
    }
  }

  lemma {:induction false} ShorterPiece(s: string)
    ensures '\'' in s ==> |Pieces(s)[0]| < |s|
    decreases |s|
  {
    if s != [] {
      ShorterPiece(s[1..]);
    }
  }

  lemma ConvertShorter(number: Numbers, s: string)
    ensures Convert(number, s).Text? ==> |Convert(number, s).s| <= |s|
  {
    var before, after := StripParts(s);
    hide Strip;
  }

  lemma {:induction false} ReadUpTo(number: Numbers, values: seq<Value>, k: nat)
    requires k < |values| && forall i :: 0 <= i < k ==> ComesBack(number, values[i])
    ensures k < |AllRestored(number, values)| && AllRestored(number, values)[k] == Restored(number, values[k])[0]
    decreases k
  {
    hide Restored, ComesBack;
    FirstDiffers(number, values[0]);
    if k > 0 {
      RestoredIff(number, values[0]);
      ReadUpTo(number, values[1..], k - 1);
    }
  }

  lemma {:induction false} FirstLost(number: Numbers, values: seq<Value>) returns (k: nat)
    requires exists v :: v in values && !ComesBack(number, v)
    ensures k < |values| && !ComesBack(number, values[k]) && forall i :: 0 <= i < k ==> ComesBack(number, values[i])
    decreases |values|
  {
    hide ComesBack;
    if ComesBack(number, values[0]) {
      var j := FirstLost(number, values[1..]);
      k := j + 1;
      assert forall i :: 0 < i < k ==> values[i] == values[1..][i - 1];
    } else {
      k := 0;
    }
  }

  /** Reading a dumped INSERT back gives the row, restricted to the table's columns, if and only if each of its
      values comes back. */
  lemma RowComesBackIff(number: Numbers, columns: seq<string>, row: Row)
    requires AllDistinct(columns) && forall c :: c in row && c in columns ==> PrintedNumber(row[c])
    ensures RowFrom(Present(columns, row), ReadValues(number, Join(Quoted(columns, row), ", ")))
            == Restricted(row, columns)
            <==> forall c :: c in row && c in columns ==> ComesBack(number, row[c])
  {
    hide ComesBack, PrintedNumber, ReadValues, Quoted, QuotedAll, Join, Present, Values, AllRestored, RowFrom;
    var names, values := Present(columns, row), Values(columns, row);
    var places := PairsAre(columns, row);
    QuotedIs(columns, row);
    NamesDistinct(columns, names, places);
    assert forall v :: v in values ==> exists c :: c in row && c in columns && row[c] == v;
    assert forall v :: v in values ==> PrintedNumber(v);
    ValuesAreRestored(number, values);
    if forall c :: c in row && c in columns ==> ComesBack(number, row[c]) {
      ReadBackIf(number, values);
      RowFromPairs(columns, row, names, values, places);
    } else {
      var c :| c in row && c in columns && !ComesBack(number, row[c]);
      ValueOf(columns, row, values, places, c);
      var k := FirstLost(number, values);
      ReadUpTo(number, values, k);
      FirstDiffers(number, values[k]);
      RowFromAt(names, AllRestored(number, values), k);
      assert names[k] in columns && row[names[k]] == values[k];
    }
  }

  lemma NamesDistinct(columns: seq<string>, names: seq<string>, places: seq<nat>)
    requires AllDistinct(columns) && |names| == |places|
    requires forall k :: 0 <= k < |places| ==> places[k] < |columns| && names[k] == columns[places[k]]
    requires forall j, k :: 0 <= j < k < |places| ==> places[j] < places[k]
    ensures AllDistinct(names)
  {
  }

  lemma ValueOf(columns: seq<string>, row: Row, values: seq<Value>, places: seq<nat>, c: string)
    requires c in row && c in columns && |values| == |places|
    requires forall k :: 0 <= k < |places| ==>
               places[k] < |columns| && columns[places[k]] in row && values[k] == row[columns[places[k]]]
    requires forall i :: 0 <= i < |columns| && columns[i] in row ==> i in places
    ensures row[c] in values
  {
    var i :| 0 <= i < |columns| && columns[i] == c;
    var k :| 0 <= k < |places| && places[k] == i;
    assert values[k] == row[c];
  }

  lemma RowFromPairs(columns: seq<string>, row: Row, names: seq<string>, values: seq<Value>, places: seq<nat>)
    requires AllDistinct(names) && |names| == |values| == |places|
    requires forall k :: 0 <= k < |places| ==>
               places[k] < |columns| && names[k] == columns[places[k]] && names[k] in row && values[k] == row[names[k]]
    requires forall i :: 0 <= i < |columns| && columns[i] in row ==> i in places
    ensures RowFrom(names, values) == Restricted(row, columns)
  {
    var r := RowFrom(names, values);
    forall c ensures c in r <==> c in Restricted(row, columns) {
      if c in row && c in columns {
        var i :| 0 <= i < |columns| && columns[i] == c;
        var k :| 0 <= k < |places| && places[k] == i;
        RowFromAt(names, values, k);
      } else {
        OnlyNamed(names, values, c);
      }
    }
    forall c | c in r ensures r[c] == row[c] {
      var i :| 0 <= i < |columns| && columns[i] == c;
      var k :| 0 <= k < |places| && places[k] == i;
      RowFromAt(names, values, k);
    }
  }

  lemma {:induction false} TwoPieces(a: string, b: string)
    requires '\'' !in a && '\'' !in b
    ensures Pieces(a + "'" + b) == [a, b]
    decreases |a|
  {
    OnePiece(b);
    var s := a + "'" + b;
    if a == [] {
      assert s[0] == '\'' && s[1..] == b;
    } else {
      assert s[0] == a[0] && s[1..] == a[1..] + "'" + b && a == [a[0]] + a[1..];
      TwoPieces(a[1..], b);
    }
  }

  /** A single quote in a string splits it in two, and whatever is listed behind it moves to the next column. */
  lemma QuoteSplitsString(number: Numbers, a: string, b: string, v: Value)
    requires '\'' !in a && '\'' !in b && PrintedNumber(v)
    ensures ReadValues(number, Join(QuotedAll([Text(a + "'" + b), v]), ", "))
            == [Convert(number, a), Convert(number, b)] + Restored(number, v)
  {
    hide Strip, Convert, Pieces, ReadValues, QuotedAll, Join, PrintedNumber;
    var values := [Text(a + "'" + b), v];
    TwoPieces(a, b);
    assert PrintedNumber(Text(a + "'" + b)) by { TextIsNoNumber(a + "'" + b); }
    ValuesAreRestored(number, values);
    assert values[1..] == [v] && values[1..][1..] == [];
    assert AllRestored(number, values[1..]) == Restored(number, v) + [];
    assert [a, b][1..] == [b] && [b][1..] == [];
    assert ConvertAll(number, [a, b]) == [Convert(number, a), Convert(number, b)];
  }

  lemma TextIsNoNumber(s: string)
    ensures PrintedNumber(Text(s))
  {
  }

  const OnlyOne: Numbers := (s: string) => if s == "1" then Some("1") else None

  /** For instance, it's before 1 is read as it, s and 1. */
  lemma ItsIsLost()
    ensures ReadValues(OnlyOne, Join(QuotedAll([Text("it's"), Number("1")]), ", "))
            == [Text("it"), Text("s"), Number("1")]
  {
    hide Strip, Trimmed, ReadValues, QuotedAll, Join;
    NotSpaces();
    StripTrimmed("1");
    StripTrimmed("it");
    StripTrimmed("s");
    assert "it" + "'" + "s" == "it's";
    QuoteSplitsString(OnlyOne, "it", "s", Number("1"));
    assert Convert(OnlyOne, "it") == Text("it") && Convert(OnlyOne, "s") == Text("s")
           && Convert(OnlyOne, "1") == Number("1");
  }

  lemma NotSpaces()
    ensures Trimmed("1") && Trimmed("it") && Trimmed("s")
  {
  }
}
