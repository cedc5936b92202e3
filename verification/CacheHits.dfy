/** When the query cache answers and when it does not: hits are recent and no
    write came between; misses have a reason.  And which texts share a key. */
module CacheHits {
  import opened Wrappers
  import opened SqlSplit
  import opened QueryCache
  import opened CacheRuns

  // ---- Keys ----

  /** Words with a blank before each. */
  function Spaced(words: seq<string>): string {
    if words == [] then [] else " " + words[0] + Spaced(words[1..])
  }

  /** What is written after a started text: the rest of the word being read, and the other words. */
  lemma {:induction false} NormalizeRest(s: string, current: string)
    requires current != []
    ensures WordsFrom(s, current) != [] && current <= WordsFrom(s, current)[0]
    ensures NormalizeFrom(s, true, false)
            == WordsFrom(s, current)[0][|current|..] + Spaced(WordsFrom(s, current)[1..])
    ensures NormalizeFrom(s, true, true) == Spaced(WordsFrom(s, []))
    decreases |s|
  {
    hide IsSpace;
    if s == [] {
      assert WordsFrom(s, current) == [current] && [current][1..] == [];
    } else if IsSpace(s[0]) {
      NormalizeRest(s[1..], "x");
      var rest := WordsFrom(s[1..], []);
      assert WordsFrom(s, current) == [current] + rest && ([current] + rest)[1..] == rest;
      assert WordsFrom(s, []) == [] + rest == rest;
    } else {
      var c := [s[0]];
      NormalizeRest(s[1..], current + c);
      NormalizeRest(s[1..], c);
      var w, v := WordsFrom(s[1..], current + c), WordsFrom(s[1..], c);
      assert [] + c == c;
      OneMore(current, c, w[0], Spaced(w[1..]));
      OneMore([], c, v[0], Spaced(v[1..]));
      assert [' '] + c + (v[0][1..] + Spaced(v[1..])) == " " + (c + (v[0][1..] + Spaced(v[1..])));
      assert " " + v[0] + Spaced(v[1..]) == " " + (v[0] + Spaced(v[1..]));
    }
  }

  lemma OneMore(before: string, c: string, word: string, rest: string)
    requires before + c <= word
    ensures before <= word && c + (word[|before + c|..] + rest) == word[|before|..] + rest
    ensures before == [] ==> word[|before|..] == word
  {
    assert word == before + c + word[|before + c|..];
    assert word[|before|..] == c + word[|before + c|..];
  }

  /** The normal form is the words with single blanks between them. */
  lemma {:induction false} NormalizeIs(s: string)
    ensures Words(s) == [] ==> Normalize(s) == []
    ensures Words(s) != [] ==> " " + Normalize(s) == Spaced(Words(s))
    decreases |s|
  {
    hide IsSpace;
    if s != [] {
      if IsSpace(s[0]) {
        NormalizeIs(s[1..]);
        assert [] + WordsFrom(s[1..], []) == WordsFrom(s[1..], []);
      } else {
        var c := [s[0]];
        NormalizeRest(s[1..], c);
        var v := WordsFrom(s[1..], c);
        assert [] + c == c && v[0] == c + v[0][1..];
        assert " " + (c + (v[0][1..] + Spaced(v[1..]))) == " " + v[0] + Spaced(v[1..]);
      }
    }
  }

  lemma {:induction false} SpacedInjective(a: seq<string>, b: seq<string>)
    requires (forall w :: w in a ==> IsWord(w)) && (forall w :: w in b ==> IsWord(w)) && Spaced(a) == Spaced(b)
    ensures a == b
    decreases |a|
  {
    if a != [] && b != [] {
      assert IsWord(a[0]) && IsWord(b[0]);
      assert Spaced(a)[1..] == a[0] + Spaced(a[1..]) && Spaced(b)[1..] == b[0] + Spaced(b[1..]);
      SameFirstWord(a[0], Spaced(a[1..]), b[0], Spaced(b[1..]));
      SpacedInjective(a[1..], b[1..]);
      assert a == [a[0]] + a[1..] && b == [b[0]] + b[1..];
    }
  }

  /** A word ends where the first blank begins. */
  lemma {:induction false} SameFirstWord(v: string, x: string, w: string, y: string)
    requires (forall i :: 0 <= i < |v| ==> !IsSpace(v[i])) && forall i :: 0 <= i < |w| ==> !IsSpace(w[i])
    requires (x == [] || x[0] == ' ') && (y == [] || y[0] == ' ') && v + x == w + y
    ensures v == w && x == y
    decreases |v|
  {
    var s, t := v + x, w + y;
    assert IsSpace(' ');
    hide IsSpace;
    assert s != [] ==> s[0] == if v != [] then v[0] else x[0];
    assert t != [] ==> t[0] == if w != [] then w[0] else y[0];
    if v == [] && w == [] {
      assert s == x && t == y;
    } else if v != [] && w != [] {
      assert s[1..] == v[1..] + x && t[1..] == w[1..] + y;
      SameFirstWord(v[1..], x, w[1..], y);
      assert v == [v[0]] + v[1..] && w == [w[0]] + w[1..];
    }
  }

  /** Two texts have one normal form if and only if they have the same words. */
  lemma SameKeyIff(a: string, b: string)
    ensures Normalize(a) == Normalize(b) <==> Words(a) == Words(b)
  {
    hide IsWord, Normalize;
    NormalizeIs(a);
    NormalizeIs(b);
    assert (" " + Normalize(a))[1..] == Normalize(a) && (" " + Normalize(b))[1..] == Normalize(b);
    WordsAreWords(a, []);
    WordsAreWords(b, []);
    if Normalize(a) == Normalize(b) {
      assert Words(a) != [] ==> IsWord(Words(a)[0]);
      assert Words(b) != [] ==> IsWord(Words(b)[0]);
      SpacedStart(Words(a));
      SpacedStart(Words(b));
      if Words(a) != [] && Words(b) != [] {
        SpacedInjective(Words(a), Words(b));
      }
    }
  }

  lemma SpacedStart(words: seq<string>)
    ensures words != [] && IsWord(words[0]) ==> |Spaced(words)| > 1
  {
  }

  // ---- Hits and misses over a run ----

  /** A SELECT that may be answered from the cache. */
  predicate Cacheable(e: Engine, r: Request) {
    r.useCache && e.isSelect(r.command) && e.parse(r.command).Some? && !e.noCache(r.command)
  }

  /** Request j stored its answer under key h. */
  predicate StoredAs(e: Engine, run: seq<Request>, outs: seq<Outcome>, j: nat, h: string) {
    && j < |run| && j < |outs| && Cacheable(e, run[j]) && !outs[j].hit && HashQuery(e, run[j].command) == h
  }

  /** Request m writes one of the tables, as far as its text tells. */
  predicate Writes(e: Engine, r: Request, tables: set<string>) {
    && !(r.useCache && e.isSelect(r.command)) && e.parse(r.command).Some? && e.isDml(r.command)
    && e.dmlTables(r.command) * tables != {}
  }

  /** Request j was the last to store under h, and none of its tables has been written since. */
  ghost predicate Current(e: Engine, run: seq<Request>, outs: seq<Outcome>, h: string, j: nat) {
    && StoredAs(e, run, outs, j, h)
    && forall m :: j < m < |run| ==> !StoredAs(e, run, outs, m, h) && !Writes(e, run[m], e.tables(run[j].command))
  }

  /** A write since j to a table under which h was filed by then. */
  ghost predicate Dropped(e: Engine, run: seq<Request>, outs: seq<Outcome>, h: string, j: nat) {
    exists m: nat, k: nat :: DroppedBy(e, run, outs, h, j, m, k)
  }

  ghost predicate DroppedBy(e: Engine, run: seq<Request>, outs: seq<Outcome>, h: string, j: nat, m: nat, k: nat) {
    j < m < |run| && k < m && StoredAs(e, run, outs, k, h) && Writes(e, run[m], e.tables(run[k].command))
  }

  /** Every entry was stored by a request, as it is, and is still good. */
  ghost predicate Sourced(e: Engine, run: seq<Request>, outs: seq<Outcome>, c: Cache, ttl: real) {
    forall h :: h in c.entries ==> exists j: nat :: Source(e, run, outs, c, ttl, h, j)
  }

  ghost predicate Source(e: Engine, run: seq<Request>, outs: seq<Outcome>, c: Cache, ttl: real, h: string, j: nat) {
    && h in c.entries && Current(e, run, outs, h, j)
    && c.entries[h] == Entry(outs[j].response, run[j].clock.store, ttl, e.tables(run[j].command))
  }

  /** A key is filed only under tables of requests that stored it. */
  ghost predicate FiledRightly(e: Engine, run: seq<Request>, outs: seq<Outcome>, c: Cache) {
    forall t, h :: t in c.index && h in c.index[t] ==> exists j: nat :: FiledBy(e, run, outs, t, h, j)
  }

  ghost predicate FiledBy(e: Engine, run: seq<Request>, outs: seq<Outcome>, t: string, h: string, j: nat) {
    StoredAs(e, run, outs, j, h) && t in e.tables(run[j].command)
  }

  /** Nothing stored is forgotten but by a write. */
  ghost predicate Remembered(e: Engine, run: seq<Request>, outs: seq<Outcome>, c: Cache) {
    forall j: nat, h :: StoredAs(e, run, outs, j, h) ==> h in c.entries || Dropped(e, run, outs, h, j)
  }

  /** As long as there is room for an entry for every request, nothing is evicted. */
  ghost predicate Traced(e: Engine, run: seq<Request>, outs: seq<Outcome>, c: Cache, ttl: real, maxSize: int) {
    && |outs| == |run| && Sourced(e, run, outs, c, ttl) && FiledRightly(e, run, outs, c)
    && (|run| <= maxSize ==> |c.order| <= |run| && Remembered(e, run, outs, c))
  }

  // ---- What one more request leaves as it was ----

  lemma StoredSame(e: Engine, run: seq<Request>, outs: seq<Outcome>, r: Request, o: Outcome, j: nat, h: string)
    requires |outs| == |run| && j < |run|
    ensures StoredAs(e, run + [r], outs + [o], j, h) <==> StoredAs(e, run, outs, j, h)
  {
    hide HashQuery;
  }

  lemma StoredLast(e: Engine, run: seq<Request>, outs: seq<Outcome>, r: Request, o: Outcome, h: string)
    requires |outs| == |run|
    ensures StoredAs(e, run + [r], outs + [o], |run|, h)
            <==> Cacheable(e, r) && !o.hit && HashQuery(e, r.command) == h
  {
    hide HashQuery;
  }

  lemma CurrentMore(e: Engine, run: seq<Request>, outs: seq<Outcome>, r: Request, o: Outcome, h: string, j: nat)
    requires |outs| == |run| && Current(e, run, outs, h, j)
    requires !(Cacheable(e, r) && !o.hit && HashQuery(e, r.command) == h) && !Writes(e, r, e.tables(run[j].command))
    ensures Current(e, run + [r], outs + [o], h, j)
  {
    hide HashQuery, StoredAs, Writes;
    assert StoredAs(e, run, outs, j, h);
    StoredIndex(e, run, outs, j, h);
    StoredSame(e, run, outs, r, o, j, h);
    forall m | j < m < |run + [r]|
      ensures !StoredAs(e, run + [r], outs + [o], m, h) && !Writes(e, (run + [r])[m], e.tables((run + [r])[j].command))
    {
      if m < |run| {
        StoredSame(e, run, outs, r, o, m, h);
        assert (run + [r])[m] == run[m];
      } else {
        StoredLast(e, run, outs, r, o, h);
      }
    }
  }

  lemma StoredIndex(e: Engine, run: seq<Request>, outs: seq<Outcome>, j: nat, h: string)
    requires StoredAs(e, run, outs, j, h)
    ensures j < |run| && j < |outs|
  {
  }

  lemma DroppedMore(e: Engine, run: seq<Request>, outs: seq<Outcome>, r: Request, o: Outcome, h: string, j: nat)
    requires |outs| == |run| && Dropped(e, run, outs, h, j)
    ensures Dropped(e, run + [r], outs + [o], h, j)
  {
    hide HashQuery, StoredAs, Writes;
    var m: nat, k: nat :| DroppedBy(e, run, outs, h, j, m, k);
    StoredIndex(e, run, outs, k, h);
    StoredSame(e, run, outs, r, o, k, h);
    assert DroppedBy(e, run + [r], outs + [o], h, j, m, k);
  }

  /** A request that neither stores nor drops anything. */
  lemma QuietTraced(e: Engine, run: seq<Request>, outs: seq<Outcome>, r: Request, o: Outcome, c: Cache, ttl: real,
                    maxSize: int)
    requires Traced(e, run, outs, c, ttl, maxSize) && !(Cacheable(e, r) && !o.hit)
    requires forall tables :: !Writes(e, r, tables)
    ensures Traced(e, run + [r], outs + [o], c, ttl, maxSize)
  {
    hide HashQuery, StoredAs, Writes, Current, Dropped, Cacheable;
    forall h | h in c.entries ensures exists j: nat :: Source(e, run + [r], outs + [o], c, ttl, h, j) {
      var j: nat :| Source(e, run, outs, c, ttl, h, j);
      CurrentIndex(e, run, outs, h, j);
      CurrentMore(e, run, outs, r, o, h, j);
      assert Source(e, run + [r], outs + [o], c, ttl, h, j);
    }
    FiledMore(e, run, outs, r, o, c);
    if |run| < maxSize {
      RememberedMore(e, run, outs, r, o, c, c);
    }
  }

  lemma CurrentIndex(e: Engine, run: seq<Request>, outs: seq<Outcome>, h: string, j: nat)
    requires Current(e, run, outs, h, j)
    ensures j < |run| && j < |outs|
  {
  }

  lemma FiledMore(e: Engine, run: seq<Request>, outs: seq<Outcome>, r: Request, o: Outcome, c: Cache)
    requires |outs| == |run| && FiledRightly(e, run, outs, c)
    ensures FiledRightly(e, run + [r], outs + [o], c)
  {
    hide HashQuery, StoredAs;
    forall t, h | t in c.index && h in c.index[t] ensures exists j: nat :: FiledBy(e, run + [r], outs + [o], t, h, j) {
      var j: nat :| FiledBy(e, run, outs, t, h, j);
      StoredIndex(e, run, outs, j, h);
      StoredSame(e, run, outs, r, o, j, h);
      assert FiledBy(e, run + [r], outs + [o], t, h, j);
    }
  }

  lemma RememberedMore(e: Engine, run: seq<Request>, outs: seq<Outcome>, r: Request, o: Outcome, c: Cache, c': Cache)
    requires |outs| == |run| && Remembered(e, run, outs, c)
    requires forall h :: h in c.entries ==> h in c'.entries
    requires Cacheable(e, r) && !o.hit ==> HashQuery(e, r.command) in c'.entries
    ensures Remembered(e, run + [r], outs + [o], c')
  {
    hide HashQuery, StoredAs, Dropped, Cacheable;
    forall j: nat, h | StoredAs(e, run + [r], outs + [o], j, h)
      ensures h in c'.entries || Dropped(e, run + [r], outs + [o], h, j)
    {
      StoredIndex(e, run + [r], outs + [o], j, h);
      if j < |run| {
        StoredSame(e, run, outs, r, o, j, h);
        if h !in c.entries {
          DroppedMore(e, run, outs, r, o, h, j);
        }
      } else {
        StoredLast(e, run, outs, r, o, h);
      }
    }
  }

  /** A SELECT that missed and stored its answer. */
  lemma StoreTraced(e: Engine, run: seq<Request>, outs: seq<Outcome>, r: Request, o: Outcome, c: Cache, ttl: real,
                    maxSize: int)
    requires Traced(e, run, outs, c, ttl, maxSize) && Cacheable(e, r) && !o.hit && CacheOk(c, maxSize) && Ordered(c)
    ensures var entry := Entry(o.response, r.clock.store, ttl, e.tables(r.command));
            Traced(e, run + [r], outs + [o], Put(c, HashQuery(e, r.command), entry, maxSize), ttl, maxSize)
  {
    hide HashQuery, StoredAs, Current, Dropped, CacheOk, Ordered, Put, Cacheable;
    var h0, entry := HashQuery(e, r.command), Entry(o.response, r.clock.store, ttl, e.tables(r.command));
    var c' := Put(c, h0, entry, maxSize);
    PutEntries(c, h0, entry, maxSize);
    StoredLast(e, run, outs, r, o, h0);
    forall h | h in c'.entries ensures exists j: nat :: Source(e, run + [r], outs + [o], c', ttl, h, j) {
      if h == h0 {
        NewIsCurrent(e, run + [r], outs + [o], h0, |run|);
        assert Source(e, run + [r], outs + [o], c', ttl, h, |run|);
      } else {
        var j: nat :| Source(e, run, outs, c, ttl, h, j);
        CurrentIndex(e, run, outs, h, j);
        SelectWritesNothing(e, r, e.tables(run[j].command));
        CurrentMore(e, run, outs, r, o, h, j);
        assert Source(e, run + [r], outs + [o], c', ttl, h, j);
      }
    }
    FiledMore(e, run, outs, r, o, c);
    PutFiles(c, h0, entry, maxSize);
    NewIsFiled(e, run + [r], outs + [o], c, c', |run|);
    if |run| < maxSize {
      PutWithRoom(c, h0, entry, maxSize);
      RememberedMore(e, run, outs, r, o, c, c');
    }
  }

  lemma PutFiles(c: Cache, h0: string, entry: Entry, maxSize: int)
    requires Ordered(c)
    ensures var c' := Put(c, h0, entry, maxSize);
            forall t, h :: t in c'.index && h in c'.index[t] ==>
              (h == h0 && t in entry.deps) || (t in c.index && h in c.index[t])
  {
    hide Ordered, Without, Oldest;
  }

  lemma PutWithRoom(c: Cache, h0: string, entry: Entry, maxSize: int)
    requires Ordered(c) && |c.order| < maxSize
    ensures var c' := Put(c, h0, entry, maxSize);
            |c'.order| <= |c.order| + 1 && c'.entries == c.entries[h0 := entry]
  {
    hide Ordered, EvictOldest, Register;
  }

  lemma SelectWritesNothing(e: Engine, r: Request, tables: set<string>)
    requires Cacheable(e, r)
    ensures !Writes(e, r, tables)
  {
  }

  lemma NewIsCurrent(e: Engine, run: seq<Request>, outs: seq<Outcome>, h: string, j: nat)
    requires StoredAs(e, run, outs, j, h) && j + 1 == |run|
    ensures Current(e, run, outs, h, j)
  {
  }

  lemma NewIsFiled(e: Engine, run: seq<Request>, outs: seq<Outcome>, c: Cache, c': Cache, j: nat)
    requires FiledRightly(e, run, outs, c) && j < |run| && StoredAs(e, run, outs, j, HashQuery(e, run[j].command))
    requires forall t, h :: t in c'.index && h in c'.index[t] ==>
               (h == HashQuery(e, run[j].command) && t in e.tables(run[j].command)) || (t in c.index && h in c.index[t])
    ensures FiledRightly(e, run, outs, c')
  {
    var h0, deps := HashQuery(e, run[j].command), e.tables(run[j].command);
    hide HashQuery, StoredAs;
    forall t, h | t in c'.index && h in c'.index[t] ensures exists k: nat :: FiledBy(e, run, outs, t, h, k) {
      if h == h0 && t in deps {
        assert FiledBy(e, run, outs, t, h, j);
      } else {
        assert t in c.index && h in c.index[t];
      }
    }
  }

  /** A write drops what is filed under its tables. */
  lemma WriteTraced(e: Engine, run: seq<Request>, outs: seq<Outcome>, r: Request, o: Outcome, c: Cache, ttl: real,
                    maxSize: int)
    requires Traced(e, run, outs, c, ttl, maxSize) && CacheOk(c, maxSize) && !(Cacheable(e, r) && !o.hit)
    requires !(r.useCache && e.isSelect(r.command)) && e.parse(r.command).Some? && e.isDml(r.command)
    ensures Traced(e, run + [r], outs + [o], Invalidate(c, e.dmlTables(r.command)), ttl, maxSize)
  {
    var tables := e.dmlTables(r.command);
    var c' := Invalidate(c, tables);
    InvalidateKeeps(c, tables, maxSize);
    FewerOrdered(c, tables);
    hide HashQuery, StoredAs, Current, Dropped, Cacheable, CacheOk;
    forall h | h in c'.entries ensures exists j: nat :: Source(e, run + [r], outs + [o], c', ttl, h, j) {
      var j: nat :| Source(e, run, outs, c, ttl, h, j);
      CurrentIndex(e, run, outs, h, j);
      assert c'.entries[h].deps !! tables;
      NoWrite(e, r, e.tables(run[j].command));
      CurrentMore(e, run, outs, r, o, h, j);
      assert Source(e, run + [r], outs + [o], c', ttl, h, j);
    }
    FiledMore(e, run, outs, r, o, c);
    forall t, h | t in c'.index && h in c'.index[t]
        ensures exists j: nat :: FiledBy(e, run + [r], outs + [o], t, h, j) {
      assert t in c.index && h in c.index[t];
    }
    forall j: nat, h | StoredAs(e, run + [r], outs + [o], j, h) && |run| < maxSize
      ensures h in c'.entries || Dropped(e, run + [r], outs + [o], h, j)
    {
      StoredIndex(e, run + [r], outs + [o], j, h);
      StoredLast(e, run, outs, r, o, h);
      StoredSame(e, run, outs, r, o, j, h);
      if h !in c.entries {
        DroppedMore(e, run, outs, r, o, h, j);
      } else if h !in c'.entries {
        DropsIt(e, run, outs, r, o, c, h, j);
      }
    }
  }

  lemma FewerOrdered(c: Cache, tables: set<string>)
    ensures |Invalidate(c, tables).order| <= |c.order|
  {
  }

  lemma NoWrite(e: Engine, r: Request, deps: set<string>)
    requires deps !! e.dmlTables(r.command)
    ensures !Writes(e, r, deps)
  {
    assert e.dmlTables(r.command) * deps == {};
  }

  lemma DropsIt(e: Engine, run: seq<Request>, outs: seq<Outcome>, r: Request, o: Outcome, c: Cache, h: string, j: nat)
    requires |outs| == |run| && FiledRightly(e, run, outs, c) && h in Filed(c.index, e.dmlTables(r.command))
             && j < |run|
    requires !(r.useCache && e.isSelect(r.command)) && e.parse(r.command).Some? && e.isDml(r.command)
    ensures Dropped(e, run + [r], outs + [o], h, j)
  {
    hide HashQuery, StoredAs;
    var t :| t in e.dmlTables(r.command) && t in c.index && h in c.index[t];
    var k: nat :| FiledBy(e, run, outs, t, h, k);
    StoredIndex(e, run, outs, k, h);
    StoredSame(e, run, outs, r, o, k, h);
    assert t in e.dmlTables(r.command) * e.tables(run[k].command);
    assert DroppedBy(e, run + [r], outs + [o], h, j, |run|, k);
  }

  // ---- Runs ----

  lemma {:induction false} RunSnoc(e: Engine, s: State, run: seq<Request>, r: Request, ttl: real, maxSize: int)
    requires CacheOk(s.cache, maxSize) && Ordered(s.cache)
    ensures var (s1, outs) := ExecuteAll(e, s, run, ttl, maxSize);
            && CacheOk(s1.cache, maxSize) && Ordered(s1.cache) && |outs| == |run|
            && (var (s2, o) := Execute(e, s1, r.command, r.useCache, r.clock, ttl, maxSize);
                ExecuteAll(e, s, run + [r], ttl, maxSize) == (s2, outs + [o]))
    decreases |run|
  {
    hide Execute, CacheOk, Ordered;
    if run == [] {
      ExecuteOk(e, s, r.command, r.useCache, r.clock, ttl, maxSize);
      var (s2, o) := Execute(e, s, r.command, r.useCache, r.clock, ttl, maxSize);
      assert [r][1..] == [] && run + [r] == [r] && [o] + [] == [o] && [] + [o] == [o];
      assert ExecuteAll(e, s2, [], ttl, maxSize) == (s2, []);
    } else {
      var first := run[0];
      ExecuteOk(e, s, first.command, first.useCache, first.clock, ttl, maxSize);
      var (s1, o1) := Execute(e, s, first.command, first.useCache, first.clock, ttl, maxSize);
      RunSnoc(e, s1, run[1..], r, ttl, maxSize);
      assert (run + [r])[1..] == run[1..] + [r];
      var (s2, outs) := ExecuteAll(e, s1, run[1..], ttl, maxSize);
      var o := Execute(e, s2, r.command, r.useCache, r.clock, ttl, maxSize).1;
      assert [o1] + (outs + [o]) == [o1] + outs + [o];
    }
  }

  lemma StepTraced(e: Engine, run: seq<Request>, outs: seq<Outcome>, r: Request, s: State, ttl: real, maxSize: int)
    requires CacheOk(s.cache, maxSize) && Ordered(s.cache) && Traced(e, run, outs, s.cache, ttl, maxSize)
    ensures var (s', o) := Execute(e, s, r.command, r.useCache, r.clock, ttl, maxSize);
            Traced(e, run + [r], outs + [o], s'.cache, ttl, maxSize)
  {
    hide Traced, CacheOk, Ordered, Put, HashQuery, Invalidate, Get, IsError;
    var (s', o) := Execute(e, s, r.command, r.useCache, r.clock, ttl, maxSize);
    if Cacheable(e, r) && !o.hit {
      StoreTraced(e, run, outs, r, o, s.cache, ttl, maxSize);
    } else if e.parse(r.command).Some? && !(r.useCache && e.isSelect(r.command)) && e.isDml(r.command)
              && e.dmlTables(r.command) != {} {
      WriteTraced(e, run, outs, r, o, s.cache, ttl, maxSize);
    } else {
      assert forall tables :: !Writes(e, r, tables);
      QuietTraced(e, run, outs, r, o, s.cache, ttl, maxSize);
    }
  }

  lemma {:induction false} RunTraced(e: Engine, data: Data, run: seq<Request>, ttl: real, maxSize: int)
    ensures var (s, outs) := FreshRun(e, data, run, ttl, maxSize);
            CacheOk(s.cache, maxSize) && Ordered(s.cache) && |outs| == |run|
            && Traced(e, run, outs, s.cache, ttl, maxSize)
    decreases |run|
  {
    hide Execute, Traced;
    EmptyIsOk(maxSize);
    if run == [] {
      NothingTraced(e, ttl, maxSize);
    } else {
      var n := |run| - 1;
      RunTraced(e, data, run[..n], ttl, maxSize);
      RunSnoc(e, State(Empty, data), run[..n], run[n], ttl, maxSize);
      var (s, outs) := FreshRun(e, data, run[..n], ttl, maxSize);
      StepTraced(e, run[..n], outs, run[n], s, ttl, maxSize);
      assert run[..n] + [run[n]] == run;
      ExecuteOk(e, s, run[n].command, run[n].useCache, run[n].clock, ttl, maxSize);
    }
  }

  lemma NothingTraced(e: Engine, ttl: real, maxSize: int)
    ensures Traced(e, [], [], Empty, ttl, maxSize)
  {
    hide HashQuery;
  }

  /** Request i and what went before it. */
  lemma {:induction false} AtRequest(e: Engine, data: Data, run: seq<Request>, ttl: real, maxSize: int, i: nat)
    requires i < |run|
    ensures var (s, outs) := FreshRun(e, data, run[..i], ttl, maxSize);
            var all := FreshRun(e, data, run, ttl, maxSize).1;
            && Ordered(s.cache) && |outs| == i && |all| == |run| && outs == all[..i]
            && all[i] == Execute(e, s, run[i].command, run[i].useCache, run[i].clock, ttl, maxSize).1
    decreases |run|
  {
    hide Execute, CacheOk;
    EmptyIsOk(maxSize);
    var n := |run| - 1;
    RunSnoc(e, State(Empty, data), run[..n], run[n], ttl, maxSize);
    assert run[..n] + [run[n]] == run;
    if i < n {
      AtRequest(e, data, run[..n], ttl, maxSize, i);
      assert run[..n][..i] == run[..i];
    }
  }

  /** Request j stored the answer to request i under the same key, at most the time to live before; no request between
      them stored that key or wrote one of its tables. */
  ghost predicate Explains(e: Engine, run: seq<Request>, outs: seq<Outcome>, ttl: real, i: nat, j: nat) {
    && j < i < |run| && i < |outs| && Cacheable(e, run[j]) && !outs[j].hit
    && HashQuery(e, run[j].command) == HashQuery(e, run[i].command) && outs[j].response == outs[i].response
    && run[i].clock.lookup - run[j].clock.store <= ttl
    && forall m :: j < m < i ==> !StoredAs(e, run, outs, m, HashQuery(e, run[i].command))
                                 && !Writes(e, run[m], e.tables(run[j].command))
  }

  /** Over every run from the empty cache, whatever is answered from the cache was stored by an earlier request with
      the same key, is not expired, and no write to its tables came between. */
  lemma HitsAreExplained(e: Engine, data: Data, run: seq<Request>, ttl: real, maxSize: int, i: nat) returns (j: nat)
    requires i < |run| && i < |FreshRun(e, data, run, ttl, maxSize).1| && FreshRun(e, data, run, ttl, maxSize).1[i].hit
    ensures Explains(e, run, FreshRun(e, data, run, ttl, maxSize).1, ttl, i, j)
  {
    hide FreshRun, HashQuery, StoredAs, Writes, Put, Invalidate, CacheOk, Ordered;
    AtRequest(e, data, run, ttl, maxSize, i);
    RunTraced(e, data, run[..i], ttl, maxSize);
    var (s, outs) := FreshRun(e, data, run[..i], ttl, maxSize);
    var all := FreshRun(e, data, run, ttl, maxSize).1;
    var h := HashQuery(e, run[i].command);
    HitFinds(e, s, run[i], ttl, maxSize);
    j :| Source(e, run[..i], outs, s.cache, ttl, h, j);
    StoredIndex(e, run[..i], outs, j, h);
    StoredMeans(e, run[..i], outs, j, h);
    assert run[..i][j] == run[j] && outs[j] == all[j];
    forall m | j < m < i ensures !StoredAs(e, run, all, m, h) && !Writes(e, run[m], e.tables(run[j].command)) {
      assert run[..i][m] == run[m];
      StoredPrefix(e, run, all, i, m, h);
    }
  }

  lemma HitFinds(e: Engine, s: State, r: Request, ttl: real, maxSize: int)
    requires Ordered(s.cache) && Execute(e, s, r.command, r.useCache, r.clock, ttl, maxSize).1.hit
    ensures var h := HashQuery(e, r.command);
            && h in s.cache.entries && r.clock.lookup - s.cache.entries[h].timestamp <= s.cache.entries[h].ttl
            && Execute(e, s, r.command, r.useCache, r.clock, ttl, maxSize).1.response == s.cache.entries[h].result
  {
    hide HashQuery, Put, Invalidate;
  }

  lemma StoredMeans(e: Engine, run: seq<Request>, outs: seq<Outcome>, j: nat, h: string)
    requires StoredAs(e, run, outs, j, h)
    ensures j < |run| && j < |outs| && Cacheable(e, run[j]) && !outs[j].hit && HashQuery(e, run[j].command) == h
  {
  }

  lemma StoredPrefix(e: Engine, run: seq<Request>, outs: seq<Outcome>, i: nat, m: nat, h: string)
    requires m < i <= |run| && i <= |outs|
    ensures StoredAs(e, run, outs, m, h) <==> StoredAs(e, run[..i], outs[..i], m, h)
  {
    hide HashQuery;
  }

  /** As long as the cache has room for every request, a SELECT that may be answered from it and is not has no answer
      stored, or the last one is expired, or a table under which its key was filed was written since. */
  lemma MissesAreExplained(e: Engine, data: Data, run: seq<Request>, ttl: real, maxSize: int, i: nat, j: nat)
    requires j < i < |run| <= maxSize && i < |FreshRun(e, data, run, ttl, maxSize).1|
    requires var outs := FreshRun(e, data, run, ttl, maxSize).1;
             && Cacheable(e, run[i]) && !outs[i].hit && StoredAs(e, run, outs, j, HashQuery(e, run[i].command))
             && forall m :: j < m < i ==> !StoredAs(e, run, outs, m, HashQuery(e, run[i].command))
    ensures var outs := FreshRun(e, data, run, ttl, maxSize).1;
            || run[i].clock.lookup - run[j].clock.store > ttl
            || Dropped(e, run[..i], outs[..i], HashQuery(e, run[i].command), j)
  {
    hide FreshRun, HashQuery, StoredAs, Writes, Put, Invalidate, CacheOk, Ordered, Dropped;
    AtRequest(e, data, run, ttl, maxSize, i);
    RunTraced(e, data, run[..i], ttl, maxSize);
    var (s, outs) := FreshRun(e, data, run[..i], ttl, maxSize);
    var all := FreshRun(e, data, run, ttl, maxSize).1;
    var h := HashQuery(e, run[i].command);
    StoredPrefix(e, run, all, i, j, h);
    MissFinds(e, s, run[i], ttl, maxSize);
    if h in s.cache.entries {
      var k: nat :| Source(e, run[..i], outs, s.cache, ttl, h, k);
      StoredIndex(e, run[..i], outs, k, h);
      StoredPrefix(e, run, all, i, k, h);
      assert k == j;
    }
  }

  lemma MissFinds(e: Engine, s: State, r: Request, ttl: real, maxSize: int)
    requires Ordered(s.cache) && Cacheable(e, r) && !Execute(e, s, r.command, r.useCache, r.clock, ttl, maxSize).1.hit
    ensures var h := HashQuery(e, r.command);
            h in s.cache.entries ==> r.clock.lookup - s.cache.entries[h].timestamp > s.cache.entries[h].ttl
  {
    hide HashQuery, Put, Invalidate;
  }
}
