/** The query cache of batch_query_cache.py under the command path of
    batch_executor.py: cached execution refines direct execution. */
module QueryCache {
  import opened Wrappers
  import opened SqlSplit

  // ---- The database behind the cache ----

  /** What each table holds. */
  type Data = map<string, seq<string>>

  datatype Parsed = Parsed(kind: string, params: map<string, string>)

  /** Parser, command execution and the source's textual tests, as given functions. */
  datatype Engine = Engine(
    parse: string -> Option<Parsed>,
    run: (Parsed, Data) -> (Data, string),
    digest: string -> string,
    isSelect: string -> bool,
    isDml: string -> bool,
    noCache: string -> bool,
    tables: string -> set<string>,
    dmlTables: string -> set<string>)

  /** `" ".join(query.split())`, with a pending blank once something has been written. */
  function NormalizeFrom(s: string, started: bool, pending: bool): string {
    if s == [] then []
    else if IsSpace(s[0]) then NormalizeFrom(s[1..], started, started)
    else (if pending then [' '] else []) + [s[0]] + NormalizeFrom(s[1..], true, false)
  }

  function Normalize(query: string): string {
    NormalizeFrom(query, false, false)
  }

  function HashQuery(e: Engine, query: string): string {
    e.digest(Normalize(query))
  }

  // ---- The cache ----

  datatype Entry = Entry(result: string, timestamp: real, ttl: real, deps: set<string>)

  /** `order` lists the keys of `entries` as the dictionary iterates them. */
  datatype Cache = Cache(order: seq<string>, entries: map<string, Entry>, index: map<string, set<string>>)

  const Empty := Cache([], map[], map[])

  function Get(c: Cache, h: string, now: real): Option<string> {
    if h in c.entries && !(now - c.entries[h].timestamp > c.entries[h].ttl) then Some(c.entries[h].result) else None
  }

  /** The first key with the smallest timestamp. */
  function Oldest(order: seq<string>, entries: map<string, Entry>): (h: string)
    requires order != [] && forall k :: k in order ==> k in entries
    ensures h in order && forall k :: k in order ==> entries[h].timestamp <= entries[k].timestamp
  {
    var n := |order| - 1;
    if n == 0 then order[0]
    else
      var front := Oldest(order[..n], entries);
      if entries[order[n]].timestamp < entries[front].timestamp then order[n] else front
  }

  function Without(order: seq<string>, hashes: set<string>): (r: seq<string>)
    ensures |r| <= |order|
  {
    if order == [] then []
    else
      var n := |order| - 1;
      Without(order[..n], hashes) + if order[n] in hashes then [] else [order[n]]
  }

  predicate Distinct(s: seq<string>) {
    forall i, j :: 0 <= i < j < |s| ==> s[i] != s[j]
  }

  ghost predicate Ordered(c: Cache) {
    Distinct(c.order) && forall k :: k in c.order <==> k in c.entries
  }

  /** The index without one hash under some tables. */
  function Discard(index: map<string, set<string>>, tables: set<string>, h: string): map<string, set<string>> {
    map t | t in index :: if t in tables then index[t] - {h} else index[t]
  }

  /** The index with one hash added under some tables. */
  function Register(index: map<string, set<string>>, tables: set<string>, h: string): map<string, set<string>> {
    map t | t in index.Keys + tables ::
      (if t in index then index[t] else {}) + (if t in tables then {h} else {})
  }

  function EvictOldest(c: Cache): Cache
    requires Ordered(c)
  {
    if c.order == [] then c
    else
      var h := Oldest(c.order, c.entries);
      Cache(Without(c.order, {h}), c.entries - {h}, Discard(c.index, c.entries[h].deps, h))
  }

  function Put(c: Cache, h: string, entry: Entry, maxSize: int): Cache
    requires Ordered(c)
  {
    var room := if |c.order| >= maxSize then EvictOldest(c) else c;
    Cache(if h in room.entries then room.order else room.order + [h],
          room.entries[h := entry], Register(room.index, entry.deps, h))
  }

  /** Every hash filed under one of the tables. */
  function Filed(index: map<string, set<string>>, tables: set<string>): set<string> {
    set t, h | t in tables && t in index && h in index[t] :: h
  }

  function Invalidate(c: Cache, tables: set<string>): Cache {
    var gone := Filed(c.index, tables);
    Cache(Without(c.order, gone), c.entries - gone, c.index - tables)
  }

  // ---- Commands ----

  datatype State = State(cache: Cache, data: Data)

  datatype Status = Ok | Error

  /** The response text, whether it came from the cache, and the reported status. */
  datatype Outcome = Outcome(response: string, hit: bool, status: Status)

  predicate IsError(response: string) {
    "ERROR" <= response
  }

  function Report(response: string): Status {
    if IsError(response) then Error else Ok
  }

  const ParseError := "Parse error"

  /** What the command does without any cache. */
  function Direct(e: Engine, data: Data, command: string): (Data, Outcome) {
    match e.parse(command)
    case None => (data, Outcome(ParseError, false, Error))
    case Some(p) => var (data', response) := e.run(p, data); (data', Outcome(response, false, Report(response)))
  }

  /** When a command is looked up and when its result is stored. */
  datatype Clock = Clock(lookup: real, store: real)

  /** `_execute_single_command` after its hints are parsed. */
  function Execute(e: Engine, s: State, command: string, useCache: bool, clock: Clock, ttl: real,
                   maxSize: int): (State, Outcome)
    requires Ordered(s.cache)
  {
    match e.parse(command)
    case None => (s, Outcome(ParseError, false, Error))
    case Some(p) =>
      if useCache && e.isSelect(command) then ExecuteWithQueryCache(e, s, command, p, clock, ttl, maxSize)
      else
        var (data', response) := e.run(p, s.data);
        var cache' := if e.isDml(command) && e.dmlTables(command) != {}
                      then Invalidate(s.cache, e.dmlTables(command)) else s.cache;
        (State(cache', data'), Outcome(response, false, Report(response)))
  }

  function ExecuteWithQueryCache(e: Engine, s: State, command: string, p: Parsed, clock: Clock, ttl: real,
                                 maxSize: int): (State, Outcome)
    requires Ordered(s.cache)
  {
    var h := HashQuery(e, command);
    var cached := if e.noCache(command) then None else Get(s.cache, h, clock.lookup);
    if cached.Some? then (s, Outcome(cached.value, true, Ok))
    else
      var (data', response) := e.run(p, s.data);
      var entry := Entry(response, clock.store, ttl, e.tables(command));
      (State(if e.noCache(command) then s.cache else Put(s.cache, h, entry, maxSize), data'),
       Outcome(response, false, Report(response)))
  }

  // ---- What coherence rests on ----

  ghost predicate Agree(a: Data, b: Data, tables: set<string>) {
    forall t :: t in tables ==> (t in a <==> t in b) && (t in a ==> a[t] == b[t])
  }

  /** The answer to each of these queries depends only on the tables extracted from its text, and it writes nothing. */
  ghost predicate ReadsCovered(e: Engine, texts: set<string>) {
    forall q, a, b :: q in texts && e.isSelect(q) && e.parse(q).Some? ==>
      e.run(e.parse(q).value, a).0 == a
      && (Agree(a, b, e.tables(q)) ==> e.run(e.parse(q).value, a).1 == e.run(e.parse(q).value, b).1)
  }

  /** Those of the queries that have one cache key have the same answers. */
  ghost predicate KeysFaithful(e: Engine, texts: set<string>) {
    forall q, r, a ::
      (&& q in texts && r in texts && e.isSelect(q) && e.isSelect(r) && e.parse(q).Some? && e.parse(r).Some?
       && HashQuery(e, q) == HashQuery(e, r)) ==>
      e.run(e.parse(q).value, a).1 == e.run(e.parse(r).value, a).1
  }

  /** A command that is not a SELECT changes only the tables extracted from it as DML. */
  ghost predicate WritesCovered(e: Engine, command: string) {
    forall a, t :: !e.isSelect(command) && e.parse(command).Some?
                   && !(e.isDml(command) && t in e.dmlTables(command)) ==>
      Agree(a, e.run(e.parse(command).value, a).0, {t})
  }

  // ---- The invariant ----

  /** Every entry is filed under all the tables it depends on. */
  ghost predicate DepsFiled(c: Cache) {
    forall h, t :: h in c.entries && t in c.entries[h].deps ==> t in c.index && h in c.index[t]
  }

  /** Every entry is the current answer to one of the queries with its key and its tables. */
  ghost predicate Current(e: Engine, texts: set<string>, c: Cache, data: Data) {
    forall h :: h in c.entries ==> Answers(e, texts, h, c.entries[h], data)
  }

  ghost predicate Answers(e: Engine, texts: set<string>, h: string, entry: Entry, data: Data) {
    exists q :: q in texts && e.isSelect(q) && e.parse(q).Some? && HashQuery(e, q) == h && e.tables(q) == entry.deps
                && e.run(e.parse(q).value, data).1 == entry.result
  }

  ghost predicate CacheOk(c: Cache, maxSize: int) {
    Ordered(c) && DepsFiled(c) && |c.order| <= (if maxSize < 1 then 1 else maxSize)
  }

  lemma {:induction false} WithoutDistinct(order: seq<string>, hashes: set<string>)
    requires Distinct(order)
    ensures Distinct(Without(order, hashes))
    ensures forall k :: k in Without(order, hashes) <==> k in order && k !in hashes
    ensures forall h :: h in order && h in hashes ==> |Without(order, hashes)| < |order|
    decreases |order|
  {
    if order != [] {
      var n := |order| - 1;
      WithoutDistinct(order[..n], hashes);
      assert order == order[..n] + [order[n]];
      forall k | k in Without(order[..n], hashes) ensures k != order[n] {
        assert k in order[..n];
      }
    }
  }

  lemma EvictKeeps(c: Cache, maxSize: int)
    requires CacheOk(c, maxSize)
    ensures CacheOk(EvictOldest(c), maxSize)
    ensures c.order != [] ==> |EvictOldest(c).order| < |c.order|
    ensures forall h :: h in EvictOldest(c).entries ==> h in c.entries && EvictOldest(c).entries[h] == c.entries[h]
    ensures forall h, k :: h in c.entries && h !in EvictOldest(c).entries && k in c.entries ==>
              c.entries[h].timestamp <= c.entries[k].timestamp && (k != h ==> k in EvictOldest(c).entries)
  {
    hide Without, Distinct;
    if c.order != [] {
      WithoutDistinct(c.order, {Oldest(c.order, c.entries)});
    }
  }

  lemma PutKeeps(c: Cache, h: string, entry: Entry, maxSize: int)
    requires CacheOk(c, maxSize)
    ensures CacheOk(Put(c, h, entry, maxSize), maxSize)
  {
    hide Register, Without, Oldest;
    EvictKeeps(c, maxSize);
    assert c.order != [] ==> |EvictOldest(c).order| < |c.order|;
    var room := if |c.order| >= maxSize then EvictOldest(c) else c;
    assert CacheOk(room, maxSize) && (|room.order| < maxSize || |room.order| == 0);
    InsertKeeps(room, h, entry, maxSize);
  }

  /** Writing an entry where there is room for it. */
  lemma InsertKeeps(room: Cache, h: string, entry: Entry, maxSize: int)
    requires CacheOk(room, maxSize) && (|room.order| < maxSize || |room.order| == 0)
    ensures CacheOk(Cache(if h in room.entries then room.order else room.order + [h],
                          room.entries[h := entry], Register(room.index, entry.deps, h)), maxSize)
  {
    hide Ordered, DepsFiled;
    var order, index := if h in room.entries then room.order else room.order + [h], Register(room.index, entry.deps, h);
    InsertFiles(room, h, entry, order);
    InsertOrders(room, h, entry, index);
  }

  lemma InsertFiles(room: Cache, h: string, entry: Entry, order: seq<string>)
    requires DepsFiled(room)
    ensures DepsFiled(Cache(order, room.entries[h := entry], Register(room.index, entry.deps, h)))
  {
    var index, entries := Register(room.index, entry.deps, h), room.entries[h := entry];
    forall k, t | k in entries && t in entries[k].deps ensures t in index && k in index[t] {
      if k != h {
        assert t in room.index && k in room.index[t];
      }
    }
  }

  lemma InsertOrders(room: Cache, h: string, entry: Entry, index: map<string, set<string>>)
    requires Ordered(room)
    ensures Ordered(Cache(if h in room.entries then room.order else room.order + [h], room.entries[h := entry], index))
  {
    assert h !in room.entries ==> h !in room.order && Distinct(room.order + [h]);
  }

  lemma PutEntries(c: Cache, h: string, entry: Entry, maxSize: int)
    requires CacheOk(c, maxSize)
    ensures var c' := Put(c, h, entry, maxSize);
            && h in c'.entries && c'.entries[h] == entry
            && forall k :: k in c'.entries && k != h ==> k in c.entries && c'.entries[k] == c.entries[k]
  {
    hide EvictOldest, DepsFiled, Ordered, Register;
    EvictKeeps(c, maxSize);
    assert Ordered(c);
  }

  lemma InvalidateKeeps(c: Cache, tables: set<string>, maxSize: int)
    requires CacheOk(c, maxSize)
    ensures var c' := Invalidate(c, tables);
            && CacheOk(c', maxSize)
            && forall h :: h in c'.entries ==>
                 h in c.entries && c'.entries[h] == c.entries[h] && c'.entries[h].deps !! tables
  {
    hide Without, Distinct;
    var gone := Filed(c.index, tables);
    WithoutDistinct(c.order, gone);
    forall h | h in c.entries && h !in gone ensures c.entries[h].deps !! tables {
      forall t | t in c.entries[h].deps ensures t !in tables {
        assert t in c.index && h in c.index[t];
      }
    }
  }

  /** An answer stays current as long as none of its tables changes. */
  lemma AnswerSurvives(e: Engine, texts: set<string>, h: string, entry: Entry, a: Data, b: Data)
    requires ReadsCovered(e, texts) && Answers(e, texts, h, entry, a) && Agree(a, b, entry.deps)
    ensures Answers(e, texts, h, entry, b)
  {
  }

  ghost predicate Coherent(e: Engine, texts: set<string>, s: State, maxSize: int) {
    CacheOk(s.cache, maxSize) && Current(e, texts, s.cache, s.data)
  }

  /** A SELECT through the cache answers as the database would now. */
  lemma SelectKeeps(e: Engine, texts: set<string>, s: State, command: string, p: Parsed, clock: Clock,
                    ttl: real, maxSize: int)
    requires ReadsCovered(e, texts) && KeysFaithful(e, texts) && Coherent(e, texts, s, maxSize)
    requires command in texts && e.isSelect(command) && e.parse(command) == Some(p)
    ensures var (s', o) := ExecuteWithQueryCache(e, s, command, p, clock, ttl, maxSize);
            Coherent(e, texts, s', maxSize) && s'.data == s.data && o.response == e.run(p, s.data).1
  {
    hide Put, CacheOk, HashQuery;
    assert CacheOk(s.cache, maxSize) && Ordered(s.cache) by { OkIsOrdered(s.cache, maxSize); }
    var h := HashQuery(e, command);
    if h in s.cache.entries {
      SameAnswer(e, texts, h, s.cache.entries[h], s.data, command);
    }
    var entry := Entry(e.run(p, s.data).1, clock.store, ttl, e.tables(command));
    assert e.run(e.parse(command).value, s.data).0 == s.data;
    assert Answers(e, texts, h, entry, s.data);
    PutKeeps(s.cache, h, entry, maxSize);
    PutEntries(s.cache, h, entry, maxSize);
  }

  lemma OkIsOrdered(c: Cache, maxSize: int)
    requires CacheOk(c, maxSize)
    ensures Ordered(c)
  {
  }

  lemma SameAnswer(e: Engine, texts: set<string>, h: string, entry: Entry, data: Data, command: string)
    requires KeysFaithful(e, texts) && Answers(e, texts, h, entry, data)
    requires command in texts && e.isSelect(command) && e.parse(command).Some? && HashQuery(e, command) == h
    ensures entry.result == e.run(e.parse(command).value, data).1
  {
    hide HashQuery;
  }

  /** A command that writes drops every entry that could have seen the change. */
  lemma WriteKeeps(e: Engine, texts: set<string>, s: State, command: string, p: Parsed, maxSize: int)
    requires ReadsCovered(e, texts) && WritesCovered(e, command) && Coherent(e, texts, s, maxSize)
    requires !e.isSelect(command) && e.parse(command) == Some(p)
    ensures var data' := e.run(p, s.data).0;
            var tables := if e.isDml(command) then e.dmlTables(command) else {};
            Coherent(e, texts, State(if tables != {} then Invalidate(s.cache, tables) else s.cache, data'), maxSize)
  {
    hide CacheOk, Invalidate, Answers, ReadsCovered;
    var data' := e.run(p, s.data).0;
    var tables := if e.isDml(command) then e.dmlTables(command) else {};
    InvalidateKeeps(s.cache, tables, maxSize);
    var c' := if tables != {} then Invalidate(s.cache, tables) else s.cache;
    forall h | h in c'.entries ensures Answers(e, texts, h, c'.entries[h], data') {
      forall t | t in c'.entries[h].deps
        ensures (t in s.data <==> t in data') && (t in s.data ==> s.data[t] == data'[t])
      {
        assert t !in tables;
        assert Agree(s.data, data', {t});
      }
      AnswerSurvives(e, texts, h, c'.entries[h], s.data, data');
    }
  }

  /** One command: the cache stays coherent, and response and data are those of direct execution. */
  lemma ExecuteKeeps(e: Engine, texts: set<string>, s: State, command: string, useCache: bool, clock: Clock,
                     ttl: real, maxSize: int)
    requires ReadsCovered(e, texts) && KeysFaithful(e, texts) && WritesCovered(e, command)
             && Coherent(e, texts, s, maxSize)
    requires command in texts && (e.isSelect(command) ==> !e.isDml(command))
    ensures var (s', o) := Execute(e, s, command, useCache, clock, ttl, maxSize);
            var (data', direct) := Direct(e, s.data, command);
            Coherent(e, texts, s', maxSize) && s'.data == data' && o.response == direct.response
  {
    hide ExecuteWithQueryCache, CacheOk, Current, Invalidate, KeysFaithful, WritesCovered;
    OkIsOrdered(s.cache, maxSize);
    if e.parse(command).Some? {
      var p := e.parse(command).value;
      if e.isSelect(command) {
        SelectKeeps(e, texts, s, command, p, clock, ttl, maxSize);
        assert e.run(p, s.data).0 == s.data;
      } else {
        WriteKeeps(e, texts, s, command, p, maxSize);
      }
    }
  }

  /** A command with its cache hint and the clock readings of its execution. */
  datatype Request = Request(command: string, useCache: bool, clock: Clock)

  ghost function ExecuteAll(e: Engine, s: State, run: seq<Request>, ttl: real, maxSize: int): (r: (State, seq<Outcome>))
    requires Ordered(s.cache)
    requires CacheOk(s.cache, maxSize)
    decreases |run|
  {
    if run == [] then (s, [])
    else
      var (s1, o) := Execute(e, s, run[0].command, run[0].useCache, run[0].clock, ttl, maxSize);
      ExecuteOk(e, s, run[0].command, run[0].useCache, run[0].clock, ttl, maxSize);
      var (s2, rest) := ExecuteAll(e, s1, run[1..], ttl, maxSize);
      (s2, [o] + rest)
  }

  lemma ExecuteOk(e: Engine, s: State, command: string, useCache: bool, clock: Clock, ttl: real, maxSize: int)
    requires CacheOk(s.cache, maxSize)
    ensures CacheOk(Execute(e, s, command, useCache, clock, ttl, maxSize).0.cache, maxSize)
    ensures Ordered(Execute(e, s, command, useCache, clock, ttl, maxSize).0.cache)
  {
    hide Put, Invalidate, DepsFiled, Distinct;
    var h := HashQuery(e, command);
    if e.parse(command).Some? {
      InvalidateKeeps(s.cache, e.dmlTables(command), maxSize);
      PutKeeps(s.cache, h, Entry(e.run(e.parse(command).value, s.data).1, clock.store, ttl, e.tables(command)),
               maxSize);
    }
  }

  function DirectAll(e: Engine, data: Data, run: seq<Request>): (Data, seq<Outcome>)
    decreases |run|
  {
    if run == [] then (data, [])
    else
      var (data1, o) := Direct(e, data, run[0].command);
      var (data2, rest) := DirectAll(e, data1, run[1..]);
      (data2, [o] + rest)
  }

  ghost predicate SameResponses(a: seq<Outcome>, b: seq<Outcome>) {
    |a| == |b| && forall i :: 0 <= i < |a| ==> a[i].response == b[i].response
  }

  /** Over every run, cached execution gives the responses and the data of direct execution. */
  lemma {:induction false} CacheRefinesDirect(e: Engine, texts: set<string>, s: State, run: seq<Request>,
                                              ttl: real, maxSize: int)
    requires ReadsCovered(e, texts) && KeysFaithful(e, texts) && Coherent(e, texts, s, maxSize)
    requires forall i :: 0 <= i < |run| ==> run[i].command in texts && WritesCovered(e, run[i].command)
    requires forall q :: e.isSelect(q) ==> !e.isDml(q)
    ensures Ordered(s.cache)
    ensures var (s', outcomes) := ExecuteAll(e, s, run, ttl, maxSize);
            && Coherent(e, texts, s', maxSize) && s'.data == DirectAll(e, s.data, run).0
            && SameResponses(outcomes, DirectAll(e, s.data, run).1)
    decreases |run|
  {
    hide ReadsCovered, KeysFaithful, WritesCovered, Current, Execute, Direct, DepsFiled, Distinct;
    if run != [] {
      ExecuteKeeps(e, texts, s, run[0].command, run[0].useCache, run[0].clock, ttl, maxSize);
      ExecuteOk(e, s, run[0].command, run[0].useCache, run[0].clock, ttl, maxSize);
      var s1 := Execute(e, s, run[0].command, run[0].useCache, run[0].clock, ttl, maxSize).0;
      forall i | 0 <= i < |run[1..]| ensures run[1..][i].command in texts && WritesCovered(e, run[1..][i].command) {
        assert run[i + 1].command in texts && WritesCovered(e, run[i + 1].command);
      }
      CacheRefinesDirect(e, texts, s1, run[1..], ttl, maxSize);
    }
  }

  // ---- Cache keys ----

  lemma {:induction false} NormalizeSkips(a: string, b: string, started: bool, pending: bool)
    ensures NormalizeFrom(a + "  " + b, started, pending) == NormalizeFrom(a + " " + b, started, pending)
    decreases |a|
  {
    if a == [] {
      assert (a + "  " + b)[1..] == " " + b && (" " + b)[1..] == b && (a + " " + b) == " " + b;
    } else {
      assert (a + "  " + b)[1..] == a[1..] + "  " + b && (a + " " + b)[1..] == a[1..] + " " + b;
      NormalizeSkips(a[1..], b, true, false);
      NormalizeSkips(a[1..], b, started, started);
    }
  }

  /** Texts that differ in the number of blanks at some place share their key, even if that place is
      inside a string literal. */
  lemma KeyIgnoresRepeatedBlanks(e: Engine, a: string, b: string)
    ensures HashQuery(e, a + "  " + b) == HashQuery(e, a + " " + b)
  {
    NormalizeSkips(a, b, false, false);
  }

  // ---- The source's objects ----

  /** `CommandCache`: parsed commands, least recently used first. */
  class CommandCache {
    var order: seq<string>
    var parsed: map<string, Parsed>
    const maxSize: nat

    /** Every entry is what the parser gives for its text. */
    ghost predicate Valid(parse: string -> Option<Parsed>)
      reads this
    {
      && Distinct(order) && (forall k :: k in order <==> k in parsed) && |order| <= maxSize
      && forall k :: k in parsed ==> parse(k) == Some(parsed[k])
    }

    constructor (maxSize: nat)
      ensures order == [] && parsed == map[] && this.maxSize == maxSize
    {
      order, parsed, this.maxSize := [], map[], maxSize;
    }

    method GetParsed(command: string, ghost parse: string -> Option<Parsed>) returns (p: Option<Parsed>)
      requires Valid(parse)
      modifies this
      ensures Valid(parse) && parsed == old(parsed)
      ensures p == if command in parsed then parse(command) else None
      ensures order == if command in parsed then old(Without(order, {command})) + [command] else old(order)
    {
      if command in parsed {
        WithoutDistinct(order, {command});
        order := Without(order, {command}) + [command];
        return Some(parsed[command]);
      }
      return None;
    }

    /** A new text takes the place of the least recently used one; with no room at all the source raises KeyError. */
    method PutParsed(command: string, p: Parsed, ghost parse: string -> Option<Parsed>) returns (ok: bool)
      requires Valid(parse) && parse(command) == Some(p)
      modifies this
      ensures Valid(parse) && (ok <==> command in old(parsed) || maxSize > 0)
      ensures ok ==> command in parsed && order[|order| - 1] == command
      ensures command !in old(parsed) && ok ==>
                order == (if |old(order)| >= maxSize then old(order)[1..] else old(order)) + [command]
    {
      if command in parsed {
        WithoutDistinct(order, {command});
        order := Without(order, {command}) + [command];
        return true;
      }
      if |order| >= maxSize {
        if order == [] {
          return false;
        }
        assert order == [order[0]] + order[1..];
        parsed := parsed - {order[0]};
        order := order[1..];
      }
      order := order + [command];
      parsed := parsed[command := p];
      return true;
    }
  }

  class BatchQueryCache {
    var order: seq<string>
    var entries: map<string, Entry>
    var tableIndex: map<string, set<string>>
    const defaultTtl: real
    const maxSize: int

    ghost function State(): Cache
      reads this
    {
      Cache(order, entries, tableIndex)
    }

    constructor (defaultTtl: real, maxSize: int)
      ensures State() == Empty && this.defaultTtl == defaultTtl && this.maxSize == maxSize
    {
      this.defaultTtl, this.maxSize := defaultTtl, maxSize;
      order, entries, tableIndex := [], map[], map[];
    }

    method Lookup(h: string, now: real) returns (r: Option<string>)
      ensures r == Get(State(), h, now)
    {
      if h in entries && !(now - entries[h].timestamp > entries[h].ttl) {
        return Some(entries[h].result);
      }
      return None;
    }

    method EvictOldestEntry()
      requires Ordered(State())
      modifies this
      ensures State() == EvictOldest(old(State()))
    {
      if order == [] {
        return;
      }
      var oldest := Oldest(order, entries);
      var entry := entries[oldest];
      order := Without(order, {oldest});
      entries := entries - {oldest};
      ghost var before := tableIndex;
      var todo := entry.deps;
      while todo != {}
        invariant todo <= entry.deps && tableIndex.Keys == before.Keys
        invariant forall t :: t in before ==>
                    tableIndex[t] == if t in entry.deps - todo then before[t] - {oldest} else before[t]
        invariant order == Without(old(order), {oldest}) && entries == old(entries) - {oldest}
        decreases todo
      {
        var t :| t in todo;
        if t in tableIndex {
          tableIndex := tableIndex[t := tableIndex[t] - {oldest}];
        }
        todo := todo - {t};
      }
      assert tableIndex == Discard(before, entry.deps, oldest);
    }

    method Store(h: string, result: string, now: real, deps: set<string>)
      requires Ordered(State())
      modifies this
      ensures State() == Put(old(State()), h, Entry(result, now, defaultTtl, deps), maxSize)
    {
      hide Ordered, Distinct, Without, Oldest;
      if |order| >= maxSize {
        EvictOldestEntry();
      }
      if h !in entries {
        order := order + [h];
      }
      entries := entries[h := Entry(result, now, defaultTtl, deps)];
      RegisterDeps(h, deps);
    }

    method RegisterDeps(h: string, deps: set<string>)
      modifies this`tableIndex
      ensures tableIndex == Register(old(tableIndex), deps, h)
    {
      hide Register;
      ghost var before := tableIndex;
      var todo := deps;
      assert deps - todo == {};
      RegisterNothing(before, h);
      while todo != {}
        invariant todo <= deps && tableIndex == Register(before, deps - todo, h)
        decreases todo
      {
        var t :| t in todo;
        RegisterAnother(before, deps - todo, t, h);
        if t !in tableIndex {
          tableIndex := tableIndex[t := {}];
        }
        tableIndex := tableIndex[t := tableIndex[t] + {h}];
        assert deps - (todo - {t}) == (deps - todo) + {t};
        todo := todo - {t};
      }
      assert deps - todo == deps;
    }

    method InvalidateTables(tables: set<string>)
      modifies this
      ensures State() == Invalidate(old(State()), tables)
    {
      ghost var before := State();
      var todo := tables;
      assert Invalidate(before, {}) == before by { InvalidateNothing(before); }
      assert tables - todo == {};
      while todo != {}
        invariant todo <= tables && State() == Invalidate(before, tables - todo)
        decreases todo
      {
        var t :| t in todo;
        InvalidateAnother(before, tables - todo, t);
        if t in tableIndex {
          var hashes := tableIndex[t];
          order := Without(order, hashes);
          entries := entries - hashes;
          tableIndex := tableIndex - {t};
        }
        assert tables - (todo - {t}) == (tables - todo) + {t};
        todo := todo - {t};
      }
      assert tables - todo == tables;
    }
  }

  lemma RegisterNothing(index: map<string, set<string>>, h: string)
    ensures Register(index, {}, h) == index
  {
    forall u | u in index ensures Register(index, {}, h)[u] == index[u] {
      assert index[u] + {} == index[u];
    }
  }

  lemma RegisterAnother(index: map<string, set<string>>, tables: set<string>, t: string, h: string)
    requires t !in tables
    ensures var r := Register(index, tables, h);
            Register(index, tables + {t}, h) == r[t := (if t in r then r[t] else {}) + {h}]
  {
    var r, r' := Register(index, tables, h), Register(index, tables + {t}, h);
    forall u | u in r' && u != t ensures u in r && r'[u] == r[u] {}
    assert t in index ==> index[t] + {} == index[t];
    assert r'[t] == (if t in r then r[t] else {}) + {h};
  }

  lemma {:induction false} WithoutNothing(order: seq<string>)
    ensures Without(order, {}) == order
    decreases |order|
  {
    if order != [] {
      WithoutNothing(order[..|order| - 1]);
    }
  }

  lemma {:induction false} WithoutTwice(order: seq<string>, a: set<string>, b: set<string>)
    ensures Without(Without(order, a), b) == Without(order, a + b)
    decreases |order|
  {
    if order != [] {
      var n := |order| - 1;
      WithoutTwice(order[..n], a, b);
      var front := Without(order[..n], a);
      if order[n] !in a {
        assert (front + [order[n]])[..|front|] == front;
      } else {
        assert front + [] == front;
      }
    }
  }

  lemma InvalidateNothing(c: Cache)
    ensures Invalidate(c, {}) == c
  {
    WithoutNothing(c.order);
    assert Filed(c.index, {}) == {};
  }

  lemma FiledAnother(index: map<string, set<string>>, tables: set<string>, t: string)
    ensures Filed(index, tables + {t}) == Filed(index, tables) + if t in index then index[t] else {}
  {
  }

  lemma MinusTwice(entries: map<string, Entry>, index: map<string, set<string>>, a: set<string>, b: set<string>,
                   tables: set<string>, t: string)
    ensures entries - (a + b) == entries - a - b
    ensures index - (tables + {t}) == index - tables - {t}
  {
  }

  /** Tables can be invalidated one after the other. */
  lemma InvalidateAnother(c: Cache, tables: set<string>, t: string)
    requires t !in tables
    ensures var c1, c2 := Invalidate(c, tables), Invalidate(c, tables + {t});
            c2 == if t in c1.index then Cache(Without(c1.order, c1.index[t]), c1.entries - c1.index[t], c1.index - {t})
                  else c1
  {
    hide Without, Filed;
    var gone, more := Filed(c.index, tables), if t in c.index then c.index[t] else {};
    FiledAnother(c.index, tables, t);
    WithoutTwice(c.order, gone, more);
    MinusTwice(c.entries, c.index, gone, more, tables, t);
    if t !in c.index {
      assert gone + {} == gone;
      assert c.index - tables - {t} == c.index - tables;
    }
  }

  /** The executor's command path over its two caches and the database. */
  class BatchExecutor {
    const engine: Engine
    const commandCache: CommandCache
    const queryCache: BatchQueryCache
    var data: Data

    ghost function World(): State
      reads this, queryCache
    {
      State(queryCache.State(), data)
    }

    ghost predicate Valid()
      reads this, queryCache, commandCache
    {
      commandCache.Valid(engine.parse) && commandCache.maxSize > 0 && Ordered(queryCache.State())
    }

    constructor (engine: Engine, commandCacheSize: nat, ttl: real, queryCacheSize: int, data: Data)
      requires commandCacheSize > 0
      ensures Valid() && World() == State(Empty, data) && fresh(queryCache) && fresh(commandCache)
      ensures this.engine == engine && queryCache.defaultTtl == ttl && queryCache.maxSize == queryCacheSize
    {
      this.engine, this.data := engine, data;
      commandCache := new CommandCache(commandCacheSize);
      queryCache := new BatchQueryCache(ttl, queryCacheSize);
    }

    /** The response does not depend on whether the parse was cached. */
    method ParseCached(command: string) returns (p: Option<Parsed>)
      requires Valid()
      modifies commandCache
      ensures Valid() && p == engine.parse(command)
    {
      p := commandCache.GetParsed(command, engine.parse);
      if p.None? {
        p := engine.parse(command);
        if p.Some? {
          var stored := commandCache.PutParsed(command, p.value, engine.parse);
        }
      }
    }

    method ExecuteSingleCommand(command: string, useCache: bool, clock: Clock) returns (outcome: Outcome)
      requires Valid()
      modifies this, queryCache, commandCache
      ensures (World(), outcome)
              == Execute(engine, old(World()), command, useCache, clock, queryCache.defaultTtl, queryCache.maxSize)
    {
      hide Put, Invalidate, Get, HashQuery, IsError, Ordered;
      var p := ParseCached(command);
      if p.None? {
        return Outcome(ParseError, false, Error);
      }
      if useCache && engine.isSelect(command) {
        outcome := SelectCached(command, p.value, clock);
        return;
      }
      var (changed, response) := engine.run(p.value, data);
      data := changed;
      if engine.isDml(command) {
        var tables := engine.dmlTables(command);
        if tables != {} {
          queryCache.InvalidateTables(tables);
        }
      }
      return Outcome(response, false, Report(response));
    }

    method SelectCached(command: string, p: Parsed, clock: Clock) returns (outcome: Outcome)
      requires Ordered(queryCache.State())
      modifies this, queryCache
      ensures (World(), outcome) == ExecuteWithQueryCache(engine, old(World()), command, p, clock,
                                                         queryCache.defaultTtl, queryCache.maxSize)
    {
      hide Put, Get, HashQuery, IsError, Ordered;
      var h := HashQuery(engine, command);
      if !engine.noCache(command) {
        var cached := queryCache.Lookup(h, clock.lookup);
        if cached.Some? {
          return Outcome(cached.value, true, Ok);
        }
      }
      var (changed, response) := engine.run(p, data);
      data := changed;
      if !engine.noCache(command) {
        queryCache.Store(h, response, clock.store, engine.tables(command));
      }
      return Outcome(response, false, Report(response));
    }
  }
}
