/** Runs of the batch executor from an empty query cache: exactly when they are answered, and reported, as
    without the cache. */
module CacheRuns {
  import opened Wrappers
  import opened QueryCache
  import DbTypes

  ghost predicate Over(run: seq<Request>, texts: set<string>) {
    forall i :: 0 <= i < |run| ==> run[i].command in texts
  }

  lemma EmptyIsOk(maxSize: int)
    ensures CacheOk(Empty, maxSize) && Ordered(Empty)
  {
  }

  ghost function FreshRun(e: Engine, data: Data, run: seq<Request>, ttl: real,
                          maxSize: int): (r: (State, seq<Outcome>)) {
    EmptyIsOk(maxSize);
    ExecuteAll(e, State(Empty, data), run, ttl, maxSize)
  }

  /** What the source's textual tests and this set of commands satisfy: SELECTs read what their text says and may
      be cached, other commands write what their text says. */
  ghost predicate Covered(e: Engine, texts: set<string>) {
    && ReadsCovered(e, texts)
    && (forall q :: e.isSelect(q) ==> !e.isDml(q))
    && (forall q :: q in texts ==> WritesCovered(e, q) && (e.isSelect(q) ==> !e.noCache(q)))
  }

  /** Every run of these commands has the responses and the data of direct execution. */
  ghost predicate AnsweredDirectly(e: Engine, texts: set<string>, ttl: real, maxSize: int) {
    forall data, run :: Over(run, texts) ==>
      && FreshRun(e, data, run, ttl, maxSize).0.data == DirectAll(e, data, run).0
      && SameResponses(FreshRun(e, data, run, ttl, maxSize).1, DirectAll(e, data, run).1)
  }

  /** From the empty cache, with its size bound. */
  lemma FreshCacheRefinesDirect(e: Engine, texts: set<string>, data: Data, run: seq<Request>, ttl: real, maxSize: int)
    requires Covered(e, texts) && KeysFaithful(e, texts) && Over(run, texts)
    ensures var (s', outcomes) := FreshRun(e, data, run, ttl, maxSize);
            && s'.data == DirectAll(e, data, run).0 && SameResponses(outcomes, DirectAll(e, data, run).1)
            && |s'.cache.order| <= if maxSize < 1 then 1 else maxSize
  {
    hide ReadsCovered, KeysFaithful, WritesCovered, SameResponses;
    EmptyIsOk(maxSize);
    assert Coherent(e, texts, State(Empty, data), maxSize);
    CacheRefinesDirect(e, texts, State(Empty, data), run, ttl, maxSize);
  }

  // ---- Two SELECTs in a row ----

  const Now := Clock(0.0, 0.0)

  function InARow(q: string, r: string): seq<Request> {
    [Request(q, true, Now), Request(r, true, Now)]
  }

  /** Storing into the empty cache leaves just that entry. */
  lemma FirstEntry(h: string, entry: Entry, maxSize: int)
    ensures CacheOk(Empty, maxSize) && Ordered(Empty)
    ensures var c := Put(Empty, h, entry, maxSize); Ordered(c) && c.entries == map[h := entry]
  {
    assert EvictOldest(Empty) == Empty;
    PutKeeps(Empty, h, entry, maxSize);
  }

  /** A second SELECT with the first one's key is answered with the first one's answer, and reported OK. */
  lemma SharedKeyAnswers(e: Engine, data: Data, q: string, r: string, ttl: real, maxSize: int)
    requires e.isSelect(q) && e.parse(q).Some? && !e.noCache(q) && e.run(e.parse(q).value, data).0 == data
    requires e.isSelect(r) && e.parse(r).Some? && !e.noCache(r) && e.run(e.parse(r).value, data).0 == data
    requires HashQuery(e, q) == HashQuery(e, r) && ttl >= 0.0
    ensures var outcomes, direct := FreshRun(e, data, InARow(q, r), ttl, maxSize).1, DirectAll(e, data, InARow(q, r)).1;
            && |outcomes| == |direct| == 2
            && outcomes[1] == Outcome(e.run(e.parse(q).value, data).1, true, Ok)
            && direct[1] == Direct(e, data, r).1
  {
    hide HashQuery, Put, Ordered, CacheOk;
    var run, tail := InARow(q, r), [Request(r, true, Now)];
    assert run[1..] == tail && tail[1..] == [];
    var entry := Entry(e.run(e.parse(q).value, data).1, 0.0, ttl, e.tables(q));
    FirstEntry(HashQuery(e, q), entry, maxSize);
    EmptyIsOk(maxSize);
    var (s1, o1) := Execute(e, State(Empty, data), q, true, Now, ttl, maxSize);
    ExecuteOk(e, State(Empty, data), q, true, Now, ttl, maxSize);
    var (s2, o2) := Execute(e, s1, r, true, Now, ttl, maxSize);
    ExecuteOk(e, s1, r, true, Now, ttl, maxSize);
    assert ExecuteAll(e, s2, [], ttl, maxSize) == (s2, []);
    assert ExecuteAll(e, s1, tail, ttl, maxSize) == (s2, [o2] + []);
    assert ExecuteAll(e, State(Empty, data), run, ttl, maxSize) == (s2, [o1] + ([o2] + []));
    assert DirectAll(e, data, tail) == (data, [Direct(e, data, r).1] + []);
  }

  // ---- Responses ----

  /** Whatever may be asked: every run of these commands is answered as without the cache if and only if queries
      with one cache key have the same answers. */
  lemma AnsweredIffKeysFaithful(e: Engine, texts: set<string>, ttl: real, maxSize: int)
    requires Covered(e, texts) && ttl >= 0.0
    ensures AnsweredDirectly(e, texts, ttl, maxSize) <==> KeysFaithful(e, texts)
  {
    hide FreshRun, DirectAll, SameResponses, HashQuery;
    if KeysFaithful(e, texts) {
      forall data, run | Over(run, texts)
        ensures FreshRun(e, data, run, ttl, maxSize).0.data == DirectAll(e, data, run).0
        ensures SameResponses(FreshRun(e, data, run, ttl, maxSize).1, DirectAll(e, data, run).1)
      {
        FreshCacheRefinesDirect(e, texts, data, run, ttl, maxSize);
      }
    }
    if AnsweredDirectly(e, texts, ttl, maxSize) {
      forall q, r, a | q in texts && r in texts && e.isSelect(q) && e.isSelect(r) && e.parse(q).Some?
                       && e.parse(r).Some? && HashQuery(e, q) == HashQuery(e, r)
        ensures e.run(e.parse(q).value, a).1 == e.run(e.parse(r).value, a).1
      {
        ReadOnly(e, texts, q, a);
        ReadOnly(e, texts, r, a);
        SharedKeyAnswers(e, a, q, r, ttl, maxSize);
        assert Over(InARow(q, r), texts);
        SecondResponse(FreshRun(e, a, InARow(q, r), ttl, maxSize).1, DirectAll(e, a, InARow(q, r)).1);
      }
    }
  }

  lemma ReadOnly(e: Engine, texts: set<string>, q: string, a: Data)
    requires ReadsCovered(e, texts) && q in texts && e.isSelect(q) && e.parse(q).Some?
    ensures e.run(e.parse(q).value, a).0 == a
  {
  }

  lemma SecondResponse(a: seq<Outcome>, b: seq<Outcome>)
    requires SameResponses(a, b) && |a| == 2
    ensures |b| == 2 && a[1].response == b[1].response
  {
  }

  // ---- Statuses ----

  /** One command: the reported status is that of direct execution if and only if the command is not a SELECT
      that finds a live entry while the database would answer it with an error. */
  lemma StatusAgreesIff(e: Engine, s: State, command: string, useCache: bool, clock: Clock, ttl: real, maxSize: int)
    requires CacheOk(s.cache, maxSize)
    ensures Ordered(s.cache)
    ensures Execute(e, s, command, useCache, clock, ttl, maxSize).1.status == Direct(e, s.data, command).1.status <==>
            !(&& useCache && e.isSelect(command) && e.parse(command).Some? && !e.noCache(command)
              && Get(s.cache, HashQuery(e, command), clock.lookup).Some?
              && IsError(Direct(e, s.data, command).1.response))
  {
    hide Invalidate, Get, HashQuery, IsError, Put;
  }

  ghost predicate SameStatuses(a: seq<Outcome>, b: seq<Outcome>) {
    |a| == |b| && forall i :: 0 <= i < |a| ==> a[i].status == b[i].status
  }

  ghost predicate ReportedDirectly(e: Engine, texts: set<string>, ttl: real, maxSize: int) {
    forall data, run :: Over(run, texts) ==>
      SameStatuses(FreshRun(e, data, run, ttl, maxSize).1, DirectAll(e, data, run).1)
  }

  /** None of the SELECTs can answer with an error. */
  ghost predicate NoErrors(e: Engine, texts: set<string>) {
    forall q, a :: q in texts && e.isSelect(q) && e.parse(q).Some? ==> !IsError(e.run(e.parse(q).value, a).1)
  }

  lemma {:induction false} NoErrorsReported(e: Engine, texts: set<string>, s: State, run: seq<Request>,
                                            ttl: real, maxSize: int)
    requires Covered(e, texts) && NoErrors(e, texts) && Over(run, texts) && CacheOk(s.cache, maxSize)
    ensures Ordered(s.cache)
    ensures SameStatuses(ExecuteAll(e, s, run, ttl, maxSize).1, DirectAll(e, s.data, run).1)
    decreases |run|
  {
    hide Execute, Direct, CacheOk, WritesCovered;
    OkIsOrdered(s.cache, maxSize);
    if run != [] {
      var first := run[0];
      ExecuteOk(e, s, first.command, first.useCache, first.clock, ttl, maxSize);
      StepReported(e, texts, s, first, ttl, maxSize);
      assert Over(run[1..], texts) by { assert forall i :: 0 <= i < |run[1..]| ==> run[1..][i] == run[i + 1]; }
      NoErrorsReported(e, texts, Execute(e, s, first.command, first.useCache, first.clock, ttl, maxSize).0, run[1..],
                       ttl, maxSize);
    }
  }

  lemma StepReported(e: Engine, texts: set<string>, s: State, first: Request, ttl: real, maxSize: int)
    requires Covered(e, texts) && NoErrors(e, texts) && first.command in texts && CacheOk(s.cache, maxSize)
    ensures Ordered(s.cache)
    ensures var (s', o) := Execute(e, s, first.command, first.useCache, first.clock, ttl, maxSize);
            s'.data == Direct(e, s.data, first.command).0 && o.status == Direct(e, s.data, first.command).1.status
  {
    hide Invalidate, Get, HashQuery, IsError, Put, CacheOk;
    OkIsOrdered(s.cache, maxSize);
    StatusAgreesIff(e, s, first.command, first.useCache, first.clock, ttl, maxSize);
    if e.isSelect(first.command) && e.parse(first.command).Some? {
      ReadOnly(e, texts, first.command, s.data);
    }
  }

  /** Every run of these commands reports the statuses of direct execution if and only if none of its SELECTs
      can answer with an error. */
  lemma ReportedIffNoErrors(e: Engine, texts: set<string>, ttl: real, maxSize: int)
    requires Covered(e, texts) && ttl >= 0.0
    ensures ReportedDirectly(e, texts, ttl, maxSize) <==> NoErrors(e, texts)
  {
    hide DirectAll, SameStatuses, HashQuery, IsError, ExecuteAll;
    EmptyIsOk(maxSize);
    if NoErrors(e, texts) {
      forall data, run | Over(run, texts)
        ensures SameStatuses(FreshRun(e, data, run, ttl, maxSize).1, DirectAll(e, data, run).1)
      {
        NoErrorsReported(e, texts, State(Empty, data), run, ttl, maxSize);
      }
    }
    if ReportedDirectly(e, texts, ttl, maxSize) {
      forall q, a | q in texts && e.isSelect(q) && e.parse(q).Some? ensures !IsError(e.run(e.parse(q).value, a).1) {
        ReadOnly(e, texts, q, a);
        SharedKeyAnswers(e, a, q, q, ttl, maxSize);
        assert Over(InARow(q, q), texts);
        SecondStatus(FreshRun(e, a, InARow(q, q), ttl, maxSize).1, DirectAll(e, a, InARow(q, q)).1);
      }
    }
  }

  lemma SecondStatus(a: seq<Outcome>, b: seq<Outcome>)
    requires SameStatuses(a, b) && |a| == 2
    ensures |b| == 2 && a[1].status == b[1].status
  {
  }

  // ---- Runs that show it ----

  /** Two SELECTs that differ by one blank, wherever it stands, and whose answers differ: the second is given the
      answer of the first. */
  lemma BlankInLiteralAnsweredWrong(e: Engine, data: Data, a: string, b: string, ttl: real, maxSize: int)
    requires var q, r := a + " " + b, a + "  " + b;
             && e.isSelect(q) && e.parse(q).Some? && !e.noCache(q) && e.run(e.parse(q).value, data).0 == data
             && e.isSelect(r) && e.parse(r).Some? && !e.noCache(r) && e.run(e.parse(r).value, data).0 == data
             && e.run(e.parse(q).value, data).1 != e.run(e.parse(r).value, data).1
    requires ttl >= 0.0
    ensures var q, r := a + " " + b, a + "  " + b;
            var run := InARow(q, r);
            var outcomes, direct := FreshRun(e, data, run, ttl, maxSize).1, DirectAll(e, data, run).1;
            && |outcomes| == |direct| == 2
            && outcomes[1].response == e.run(e.parse(q).value, data).1
            && direct[1].response == e.run(e.parse(r).value, data).1
            && outcomes[1].response != direct[1].response
  {
    hide FreshRun, DirectAll, HashQuery;
    KeyIgnoresRepeatedBlanks(e, a, b);
    SharedKeyAnswers(e, data, a + " " + b, a + "  " + b, ttl, maxSize);
  }

  const Head := "SELECT v FROM t WHERE v = '"

  predicate Asks(c: string) {
    Head <= c && |c| > |Head| && c[|c| - 1] == '\''
  }

  /** The database for texts that look a literal up in the column v of a table t; other texts do not parse. */
  const Lookups := Engine(
    (c: string) =>
      Some(if Asks(c) then Parsed("SELECT", map["where" := c[|Head|..|c| - 1]]) else Parsed("UNKNOWN", map[])),
    (p: Parsed, d: Data) => (d, Answer(p, d)),
    (h: string) => h, (c: string) => "SELECT" <= c, (c: string) => false, (c: string) => false,
    (c: string) => if Asks(c) then {"t"} else {}, (c: string) => {})

  const NoSuchTable := "Table 't' does not exist"

  function Answer(p: Parsed, d: Data): string {
    if !("where" in p.params) then "ERROR: Unknown command '" + p.kind + "'"
    else if "t" !in d then NoSuchTable
    else
      var value, n := p.params["where"], multiset(d["t"])[p.params["where"]];
      if n == 0 then "Empty set" else Shown(value, n)
  }

  function Repeat(s: string, n: nat): string {
    if n == 0 then "" else s + Repeat(s, n - 1)
  }

  /** The result table for n rows of one value in the column v. */
  function Shown(value: string, n: nat): string {
    var width := if |value| > 1 then |value| else 1;
    var line := "+" + Repeat("-", width + 2) + "+\n";
    line + "| v" + Repeat(" ", width - 1) + " |\n" + line
    + Repeat("| " + value + Repeat(" ", width - |value|) + " |\n", n)
    + line + DbTypes.Decimal(n) + " row(s) in set"
  }

  /** Its texts name the one table they read, and none writes. */
  lemma LookupsCovered(texts: set<string>)
    ensures Covered(Lookups, texts)
  {
    hide Shown;
  }

  lemma LooksUp(literal: string, data: Data)
    ensures var q := Head + literal + "'";
            && Asks(q) && Lookups.isSelect(q) && !Lookups.noCache(q) && Lookups.parse(q).Some?
            && Lookups.run(Lookups.parse(q).value, data)
               == (data, if "t" !in data then NoSuchTable
                         else if literal in data["t"] then Shown(literal, multiset(data["t"])[literal])
                         else "Empty set")
  {
    hide Shown;
    var q := Head + literal + "'";
    assert q[|Head|..|q| - 1] == literal;
    assert q[..6] == "SELECT";
  }

  lemma ShownIsNotEmpty(value: string, n: nat)
    ensures Shown(value, n) != "Empty set"
  {
    assert Shown(value, n)[0] == '+';
  }

  /** For instance: with 'x y' in the table, asking for 'x  y' after it finds the row that direct execution does not. */
  lemma WrongLiteral()
    ensures var q, r := "SELECT v FROM t WHERE v = 'x y'", "SELECT v FROM t WHERE v = 'x  y'";
            var data: Data := map["t" := ["x y"]];
            var outcomes, direct := FreshRun(Lookups, data, InARow(q, r), 300.0, 1000).1,
                                    DirectAll(Lookups, data, InARow(q, r)).1;
            && |outcomes| == |direct| == 2
            && outcomes[1].response == Shown("x y", 1) && direct[1].response == "Empty set"
            && outcomes[1].response != direct[1].response
  {
    hide FreshRun, DirectAll, Asks, Answer, Shown, Lookups;
    var a, b, data: Data := Head + "x", "y" + "'", map["t" := ["x y"]];
    LooksUp("x y", data);
    LooksUp("x  y", data);
    ShownIsNotEmpty("x y", 1);
    assert a + " " + b == Head + "x y" + "'" && a + "  " + b == Head + "x  y" + "'";
    assert Head + "x y" + "'" == "SELECT v FROM t WHERE v = 'x y'";
    assert Head + "x  y" + "'" == "SELECT v FROM t WHERE v = 'x  y'";
    assert "x y" in data["t"] && multiset(data["t"]) == multiset{"x y"} && |"x y"| != |"x  y"|;
    BlankInLiteralAnsweredWrong(Lookups, data, a, b, 300.0, 1000);
  }

  const Unknown := "ERROR: Unknown command 'UNKNOWN'"

  lemma DoesNotParse(q: string, data: Data)
    requires !Asks(q)
    ensures !Lookups.noCache(q) && Lookups.parse(q).Some?
    ensures Lookups.run(Lookups.parse(q).value, data) == (data, Unknown)
  {
    hide Asks, Shown;
    assert "ERROR: Unknown command '" + "UNKNOWN" + "'" == Unknown;
  }

  lemma UnknownIsError()
    ensures IsError(Unknown)
  {
    assert Unknown[..5] == "ERROR";
  }

  lemma NoLookup()
    ensures !Asks("SELECT 'x'") && Lookups.isSelect("SELECT 'x'")
  {
    assert |"SELECT 'x'"| < |Head|;
    assert "SELECT 'x'"[..6] == "SELECT";
  }

  /** Asked twice, a text that does not parse is first reported as ERROR and then as OK. */
  lemma CachedErrorReportedOk()
    ensures var run := InARow("SELECT 'x'", "SELECT 'x'");
            var outcomes, direct := FreshRun(Lookups, map[], run, 300.0, 1000).1, DirectAll(Lookups, map[], run).1;
            && |outcomes| == |direct| == 2
            && outcomes[1].response == direct[1].response == "ERROR: Unknown command 'UNKNOWN'"
            && direct[1].status == Error && outcomes[1].status == Ok
  {
    hide FreshRun, DirectAll, HashQuery, Asks, Answer, Lookups, IsError;
    var q, data: Data := "SELECT 'x'", map[];
    NoLookup();
    DoesNotParse(q, data);
    UnknownIsError();
    SharedKeyAnswers(Lookups, data, q, q, 300.0, 1000);
    assert Direct(Lookups, data, q).1 == Outcome(Unknown, false, Error);
  }
}
