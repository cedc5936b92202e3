/** Search over the inverted index of fulltext_search.py, and the index object itself. */
module IndexSearch {
  import opened InvertedIndices

  // ---- Candidates ----

  function All(s: Index, q: seq<string>): set<string>
    requires q != []
  {
    var n := |q| - 1;
    if n == 0 then Posted(s.postings, q[0]) else All(s, q[..n]) * Posted(s.postings, q[n])
  }

  function Any(s: Index, q: seq<string>): set<string> {
    if q == [] then {} else Any(s, q[..|q| - 1]) + Posted(s.postings, q[|q| - 1])
  }

  function Candidates(s: Index, q: seq<string>): set<string>
    requires q != []
  {
    if All(s, q) != {} then All(s, q) else Any(s, q)
  }

  predicate HasAll(tok: Tokenizer, text: string, q: seq<string>) {
    forall i :: 0 <= i < |q| ==> q[i] in tok(text)
  }

  predicate HasAny(tok: Tokenizer, text: string, q: seq<string>) {
    exists i :: 0 <= i < |q| && q[i] in tok(text)
  }

  lemma PostedMeans(tok: Tokenizer, s: Index, t: string)
    requires Agrees(tok, s)
    ensures Posted(s.postings, t) == Containing(tok, s.docs, t)
  {
    hide Containing, Agrees, PostingAgrees, CountAgrees;
    AgreesMeans(tok, s);
    assert PostingAgrees(tok, s.docs, s.postings, t);
    PostingIs(tok, s.docs, s.postings, t);
  }

  lemma PostingIs(tok: Tokenizer, docs: map<string, string>, postings: Postings, t: string)
    requires PostingAgrees(tok, docs, postings, t)
    ensures Posted(postings, t) == Containing(tok, docs, t)
  {
  }

  lemma {:induction false} AllMeans(tok: Tokenizer, s: Index, q: seq<string>, d: string)
    requires Agrees(tok, s) && q != []
    ensures d in All(s, q) <==> d in s.docs && HasAll(tok, s.docs[d], q)
    decreases |q|
  {
    hide Agrees, Posted;
    var n := |q| - 1;
    PostedMeans(tok, s, q[n]);
    if n > 0 {
      AllMeans(tok, s, q[..n], d);
      if d in s.docs {
        assert HasAll(tok, s.docs[d], q) <==> HasAll(tok, s.docs[d], q[..n]) && q[n] in tok(s.docs[d]);
      }
    }
  }

  lemma {:induction false} AnyMeans(tok: Tokenizer, s: Index, q: seq<string>, d: string)
    requires Agrees(tok, s)
    ensures d in Any(s, q) <==> d in s.docs && HasAny(tok, s.docs[d], q)
    decreases |q|
  {
    hide Agrees, Posted;
    if q != [] {
      var n := |q| - 1;
      PostedMeans(tok, s, q[n]);
      AnyMeans(tok, s, q[..n], d);
      if d in s.docs {
        HasAnySnoc(tok, s.docs[d], q);
      }
    }
  }

  lemma HasAnySnoc(tok: Tokenizer, text: string, q: seq<string>)
    requires q != []
    ensures HasAny(tok, text, q) <==> HasAny(tok, text, q[..|q| - 1]) || q[|q| - 1] in tok(text)
  {
    var n := |q| - 1;
    if HasAny(tok, text, q[..n]) {
      var i :| 0 <= i < |q[..n]| && q[..n][i] in tok(text);
      assert q[i] in tok(text);
    }
    if HasAny(tok, text, q) {
      var i :| 0 <= i < |q| && q[i] in tok(text);
      if i < n {
        assert q[..n][i] in tok(text);
      }
    }
  }

  /** The documents ranked are those with every query token, or those with any if none has every one. */
  lemma CandidatesMean(tok: Tokenizer, s: Index, q: seq<string>, d: string)
    requires Agrees(tok, s) && q != []
    ensures d in Candidates(s, q) <==>
            d in s.docs && if exists e :: e in s.docs && HasAll(tok, s.docs[e], q) then HasAll(tok, s.docs[d], q)
                           else HasAny(tok, s.docs[d], q)
  {
    hide All, Any, Agrees, HasAll, HasAny;
    forall e ensures e in All(s, q) <==> e in s.docs && HasAll(tok, s.docs[e], q) {
      AllMeans(tok, s, q, e);
    }
    AnyMeans(tok, s, q, d);
    if All(s, q) != {} {
      var e :| e in All(s, q);
      assert e in s.docs && HasAll(tok, s.docs[e], q);
    }
  }

  // ---- BM25 ----

  lemma LengthPositive(tf: nat, length: nat, average: real)
    requires average > 0.0
    ensures tf as real + 1.5 * (1.0 - 0.75 + 0.75 * length as real / average) > 0.0
  {
    assert 0.75 * length as real / average >= 0.0;
  }

  function TermScore(log: real -> real, s: Index, d: string, t: string): real
    requires s.average > 0.0
  {
    var df := |Posted(s.postings, t)|;
    if df == 0 then 0.0
    else
      var counts := Counted(s.counts, t);
      var tf, length := if d in counts then counts[d] else 0, if d in s.lengths then s.lengths[d] else 0;
      var idf := log((|s.docs| as real - df as real + 0.5) / (df as real + 0.5) + 1.0);
      LengthPositive(tf, length, s.average);
      idf * (tf as real * (1.5 + 1.0) / (tf as real + 1.5 * (1.0 - 0.75 + 0.75 * length as real / s.average)))
  }

  function Score(log: real -> real, s: Index, d: string, q: seq<string>): real
    requires s.average > 0.0
  {
    if q == [] then 0.0 else Score(log, s, d, q[..|q| - 1]) + TermScore(log, s, d, q[|q| - 1])
  }

  /** A document's score; 0.0 on an index without documents, which scores nothing. */
  ghost function ScoreOf(log: real -> real, s: Index, q: seq<string>): string -> real {
    d => if s.average > 0.0 then Score(log, s, d, q) else 0.0
  }

  lemma {:induction false} SumBounds(m: map<string, nat>)
    requires forall k :: k in m ==> m[k] > 0
    ensures Sum(m) >= |m|
    decreases |m|
  {
    if m != map[] {
      var k :| k in m;
      SumPicks(m, k);
      Smaller(m, k);
      SumBounds(m - {k});
    } else {
      assert |m| == 0;
    }
  }

  /** Scoring never divides by zero: every stored document has tokens. */
  lemma AverageIsPositive(tok: Tokenizer, s: Index)
    requires Agrees(tok, s) && s.docs != map[]
    ensures s.average >= 1.0
  {
    hide Agrees, PostingAgrees, CountAgrees, Sum;
    AgreesMeans(tok, s);
    SumBounds(s.lengths);
    assert |s.lengths| == |s.lengths.Keys| == |s.docs.Keys| == |s.docs|;
    var n := |s.docs| as real;
    assert n > 0.0 && Sum(s.lengths) as real >= n;
    AtLeastOne(Sum(s.lengths) as real, n);
  }

  lemma AtLeastOne(a: real, n: real)
    requires a >= n > 0.0
    ensures a / n >= 1.0
  {
  }

  // ---- Ranking ----

  type Hit = (string, real)

  /** `sort(key=score, reverse=True)` keeps equal scores in their order. */
  function InsertHit(h: Hit, hits: seq<Hit>): seq<Hit> {
    if hits == [] then [h] else if hits[0].1 >= h.1 then [hits[0]] + InsertHit(h, hits[1..]) else [h] + hits
  }

  function SortHits(hits: seq<Hit>): seq<Hit> {
    if hits == [] then [] else InsertHit(hits[|hits| - 1], SortHits(hits[..|hits| - 1]))
  }

  predicate Descending(hits: seq<Hit>) {
    forall i, j :: 0 <= i < j < |hits| ==> hits[i].1 >= hits[j].1
  }

  lemma {:induction false} InsertPermutes(h: Hit, hits: seq<Hit>)
    ensures multiset(InsertHit(h, hits)) == multiset(hits) + multiset{h}
    decreases |hits|
  {
    if hits != [] && hits[0].1 >= h.1 {
      InsertPermutes(h, hits[1..]);
      assert hits == [hits[0]] + hits[1..];
    }
  }

  /** A score no hit exceeds is exceeded by no hit after insertion either. */
  lemma {:induction false} InsertBounded(h: Hit, hits: seq<Hit>, top: real)
    requires h.1 <= top && forall i :: 0 <= i < |hits| ==> hits[i].1 <= top
    ensures forall i :: 0 <= i < |InsertHit(h, hits)| ==> InsertHit(h, hits)[i].1 <= top
    decreases |hits|
  {
    if hits != [] && hits[0].1 >= h.1 {
      InsertBounded(h, hits[1..], top);
    }
  }

  lemma {:induction false} InsertSorts(h: Hit, hits: seq<Hit>)
    requires Descending(hits)
    ensures Descending(InsertHit(h, hits))
    decreases |hits|
  {
    if hits != [] && hits[0].1 >= h.1 {
      InsertSorts(h, hits[1..]);
      InsertBounded(h, hits[1..], hits[0].1);
    }
  }

  lemma {:induction false} SortSorts(hits: seq<Hit>)
    ensures Descending(SortHits(hits)) && multiset(SortHits(hits)) == multiset(hits)
    decreases |hits|
  {
    if hits != [] {
      var n := |hits| - 1;
      SortSorts(hits[..n]);
      InsertSorts(hits[n], SortHits(hits[..n]));
      InsertPermutes(hits[n], SortHits(hits[..n]));
      assert hits == hits[..n] + [hits[n]];
    }
  }

  /** How many of n results the slice `[:k]` keeps. */
  function Kept(n: nat, k: int): nat {
    if k >= 0 then if k < n then k else n else if n + k > 0 then n + k else 0
  }

  /** r lists the k best candidates with their scores, best first. */
  ghost predicate TopK(r: seq<Hit>, candidates: set<string>, score: string -> real, k: int) {
    && |r| == Kept(|candidates|, k)
    && Descending(r)
    && (forall i :: 0 <= i < |r| ==> r[i].0 in candidates && r[i].1 == score(r[i].0))
    && (forall i, j :: 0 <= i < j < |r| ==> r[i].0 != r[j].0)
    && (forall c, i :: c in candidates && 0 <= i < |r| && (forall j :: 0 <= j < |r| ==> r[j].0 != c) ==>
          score(c) <= r[i].1)
  }

  /** Each candidate once, with its score. */
  ghost predicate Scored(hits: seq<Hit>, candidates: set<string>, score: string -> real) {
    && |hits| == |candidates|
    && (forall i :: 0 <= i < |hits| ==> hits[i].0 in candidates && hits[i].1 == score(hits[i].0))
    && (forall i, j :: 0 <= i < j < |hits| ==> hits[i].0 != hits[j].0)
    && (forall c :: c in candidates ==> exists i :: 0 <= i < |hits| && hits[i].0 == c)
  }

  lemma SortedScored(hits: seq<Hit>, candidates: set<string>, score: string -> real)
    requires Scored(hits, candidates, score)
    ensures Scored(SortHits(hits), candidates, score)
  {
    hide SortHits, Descending;
    SortSorts(hits);
    var r := SortHits(hits);
    assert |r| == |multiset(r)| == |multiset(hits)| == |hits|;
    forall i | 0 <= i < |r| ensures r[i] in hits {
      assert r[i] in multiset(r);
    }
    forall c | c in candidates ensures exists i :: 0 <= i < |r| && r[i].0 == c {
      var i :| 0 <= i < |hits| && hits[i].0 == c;
      assert hits[i] in multiset(hits);
      assert hits[i] in r;
    }
    DistinctSurvives(hits, r);
  }

  lemma DistinctSurvives(hits: seq<Hit>, r: seq<Hit>)
    requires multiset(r) == multiset(hits)
    requires forall i, j :: 0 <= i < j < |hits| ==> hits[i].0 != hits[j].0
    ensures forall i, j :: 0 <= i < j < |r| ==> r[i].0 != r[j].0
  {
    forall i, j | 0 <= i < j < |r| ensures r[i].0 != r[j].0 {
      if r[i].0 == r[j].0 {
        assert r[i] in multiset(hits) && r[j] in multiset(hits);
        assert r[i] in hits && r[j] in hits;
        var a :| 0 <= a < |hits| && hits[a] == r[i];
        var b :| 0 <= b < |hits| && hits[b] == r[j];
        assert a == b;
        TwiceIn(r, i, j);
        OnceIn(hits, a);
        assert false;
      }
    }
  }

  lemma TwiceIn(r: seq<Hit>, i: nat, j: nat)
    requires i < j < |r| && r[i] == r[j]
    ensures multiset(r)[r[i]] >= 2
  {
    assert r == r[..i] + [r[i]] + r[i + 1..j] + [r[j]] + r[j + 1..];
  }

  lemma OnceIn(hits: seq<Hit>, a: nat)
    requires a < |hits| && forall i, j :: 0 <= i < j < |hits| ==> hits[i].0 != hits[j].0
    ensures multiset(hits)[hits[a]] == 1
  {
    assert hits == hits[..a] + [hits[a]] + hits[a + 1..];
    assert hits[a] !in hits[..a] && hits[a] !in hits[a + 1..];
  }

  lemma PastTheCut(all: seq<Hit>, n: nat, c: string) returns (m: nat)
    requires n <= |all| && (exists i :: 0 <= i < |all| && all[i].0 == c) && forall j :: 0 <= j < n ==> all[j].0 != c
    ensures n <= m < |all| && all[m].0 == c
  {
    m :| m < |all| && all[m].0 == c;
  }

  /** The first k of the sorted scores are the k best. */
  lemma SortedIsTopK(hits: seq<Hit>, candidates: set<string>, score: string -> real, k: int)
    requires Scored(hits, candidates, score)
    ensures |SortHits(hits)| == |candidates| && TopK(SortHits(hits)[..Kept(|candidates|, k)], candidates, score, k)
  {
    hide SortHits;
    SortSorts(hits);
    SortedScored(hits, candidates, score);
    var all := SortHits(hits);
    var r := all[..Kept(|candidates|, k)];
    forall c, i | c in candidates && 0 <= i < |r| && (forall j :: 0 <= j < |r| ==> r[j].0 != c)
      ensures score(c) <= r[i].1
    {
      assert forall j :: 0 <= j < |r| ==> all[j] == r[j];
      var m := PastTheCut(all, |r|, c);
    }
  }

  // ---- The source's object ----

  class InvertedIndex {
    const tokenizer: Tokenizer
    const log: real -> real
    var documents: map<string, string>
    var index: Postings
    var termFrequencies: Counts
    var docLengths: map<string, nat>
    var avgDocLength: real

    ghost function State(): Index
      reads this
    {
      Index(documents, index, termFrequencies, docLengths, avgDocLength)
    }

    constructor (tokenizer: Tokenizer, log: real -> real)
      ensures State() == Empty && this.tokenizer == tokenizer && this.log == log
    {
      this.tokenizer, this.log := tokenizer, log;
      documents, index, termFrequencies, docLengths, avgDocLength := map[], map[], map[], map[], 0.0;
    }

    method UpdateAverage()
      modifies this`avgDocLength
      ensures avgDocLength == Average(docLengths, |documents|)
    {
      hide Sum;
      var total, rest := 0, docLengths;
      while rest != map[]
        invariant total + Sum(rest) == Sum(docLengths)
        decreases |rest|
      {
        var k :| k in rest;
        SumPicks(rest, k);
        Smaller(rest, k);
        total := total + rest[k];
        rest := rest - {k};
      }
      NothingSums();
      avgDocLength := if |documents| == 0 then 0.0 else total as real / |documents| as real;
    }

    method AddToPostings(tokens: seq<string>, id: string)
      modifies this`index
      ensures index == AddPostings(old(index), tokens, id)
    {
      var all := set t | t in tokens;
      var todo := all;
      while todo != {}
        invariant todo <= all && index.Keys == old(index).Keys + (all - todo)
        invariant forall t :: t in index ==> index[t] == Posted(old(index), t) + if t in all - todo then {id} else {}
        decreases todo
      {
        var t :| t in todo;
        index := index[t := Posted(index, t) + {id}];
        todo := todo - {t};
      }
    }

    method AddToCounts(tokens: seq<string>, id: string)
      modifies this`termFrequencies
      ensures termFrequencies == AddCounts(old(termFrequencies), tokens, id)
    {
      hide Count;
      var all := set t | t in tokens;
      var todo := all;
      while todo != {}
        invariant todo <= all && termFrequencies.Keys == old(termFrequencies).Keys + (all - todo)
        invariant forall t :: t in termFrequencies ==>
                    termFrequencies[t] ==
                    if t in all - todo then Counted(old(termFrequencies), t)[id := Count(tokens, t)]
                                          else old(termFrequencies)[t]
        decreases todo
      {
        var t :| t in todo;
        termFrequencies := termFrequencies[t := Counted(termFrequencies, t)[id := Count(tokens, t)]];
        todo := todo - {t};
      }
    }

    method Add(id: string, text: string) returns (ok: bool)
      modifies this
      ensures (State(), ok) == AddDocument(tokenizer, old(State()), id, text)
    {
      hide AddPostings, AddCounts, Average;
      var tokens := tokenizer(text);
      if tokens == [] {
        return false;
      }
      documents := documents[id := text];
      AddToPostings(tokens, id);
      AddToCounts(tokens, id);
      docLengths := docLengths[id := |tokens|];
      UpdateAverage();
      return true;
    }

    method RemoveFromPostings(tokens: seq<string>, id: string)
      modifies this`index
      ensures index == RemovePostings(old(index), tokens, id)
    {
      var all := set t | t in tokens;
      var todo := all;
      while todo != {}
        invariant todo <= all
        invariant forall t :: t in index <==> t in old(index) && (t in all - todo ==> old(index)[t] - {id} != {})
        invariant forall t :: t in index ==> index[t] == if t in all - todo then old(index)[t] - {id} else old(index)[t]
        decreases todo
      {
        var t :| t in todo;
        var left := Posted(index, t) - {id};
        index := if left == {} then index - {t} else index[t := left];
        todo := todo - {t};
      }
    }

    method RemoveFromCounts(id: string)
      modifies this`termFrequencies
      ensures termFrequencies == RemoveCounts(old(termFrequencies), id)
    {
      var all := termFrequencies.Keys;
      var todo := all;
      while todo != {}
        invariant todo <= all
        invariant forall t :: t in todo ==> t in termFrequencies && termFrequencies[t] == old(termFrequencies)[t]
        invariant forall t :: t in termFrequencies ==> t in all
        invariant forall t :: t in all - todo ==>
                    (t in termFrequencies
                     <==> (id in old(termFrequencies)[t] ==> old(termFrequencies)[t] - {id} != map[]))
        invariant forall t :: t in all - todo && t in termFrequencies ==>
                    termFrequencies[t] == old(termFrequencies)[t] - {id}
        decreases todo
      {
        var t :| t in todo;
        var left := termFrequencies[t] - {id};
        if id in termFrequencies[t] {
          termFrequencies := if left == map[] then termFrequencies - {t} else termFrequencies[t := left];
        } else {
          assert left == termFrequencies[t];
        }
        todo := todo - {t};
      }
      assert termFrequencies == RemoveCounts(old(termFrequencies), id);
    }

    method Remove(id: string) returns (ok: bool)
      modifies this
      ensures (State(), ok) == RemoveDocument(tokenizer, old(State()), id)
    {
      hide RemovePostings, RemoveCounts, Average, Posted, Counted;
      if id !in documents {
        return false;
      }
      var tokens := tokenizer(documents[id]);
      RemoveFromPostings(tokens, id);
      RemoveFromCounts(id);
      documents := documents - {id};
      docLengths := docLengths - {id};
      UpdateAverage();
      return true;
    }

    method FindCandidates(q: seq<string>) returns (candidates: set<string>)
      requires q != []
      ensures candidates == Candidates(State(), q)
    {
      hide Posted;
      candidates := Posted(index, q[0]);
      assert q[..1] == [q[0]];
      var i := 1;
      while i < |q|
        invariant 1 <= i <= |q| && candidates == All(State(), q[..i])
      {
        assert q[..i + 1][..i] == q[..i];
        candidates := candidates * Posted(index, q[i]);
        i := i + 1;
      }
      assert q[..i] == q;
      if candidates == {} {
        i := 0;
        while i < |q|
          invariant i <= |q| && candidates == Any(State(), q[..i])
        {
          assert q[..i + 1][..i] == q[..i];
          candidates := candidates + Posted(index, q[i]);
          i := i + 1;
        }
        assert q[..i] == q;
      }
    }

    method ScoreAll(candidates: set<string>, q: seq<string>) returns (hits: seq<Hit>)
      requires avgDocLength > 0.0
      ensures avgDocLength > 0.0
      ensures var s := State(); Scored(hits, candidates, ScoreOf(log, s, q))
    {
      hide Score, Scored, ScoreOf;
      hits := [];
      ghost var s := State();
      ghost var score := ScoreOf(log, s, q);
      var todo := candidates;
      assert candidates - todo == {};
      NothingScored(score);
      while todo != {}
        invariant todo <= candidates && Scored(hits, candidates - todo, score)
        decreases todo
      {
        var d :| d in todo;
        var value := Bm25(d, q);
        ScoredGrows(hits, candidates - todo, score, d);
        ScoreIs(log, s, q, d);
        hits := hits + [(d, value)];
        assert candidates - (todo - {d}) == candidates - todo + {d};
        todo := todo - {d};
      }
      assert candidates - todo == candidates;
    }

    method Bm25(d: string, q: seq<string>) returns (score: real)
      requires avgDocLength > 0.0
      ensures avgDocLength > 0.0 && score == Score(log, State(), d, q)
    {
      hide TermScore;
      score := 0.0;
      var i := 0;
      while i < |q|
        invariant i <= |q| && score == Score(log, State(), d, q[..i])
      {
        assert q[..i + 1][..i] == q[..i];
        score := score + TermScore(log, Index(documents, index, termFrequencies, docLengths, avgDocLength), d, q[i]);
        i := i + 1;
      }
      assert q[..i] == q;
    }

    /** The k best-scored documents among those with every query token, or with any if none has every one. */
    method Search(query: string, k: int) returns (results: seq<Hit>)
      requires Agrees(tokenizer, State())
      ensures tokenizer(query) == [] ==> results == []
      ensures var s, q := State(), tokenizer(query);
              q != [] ==> TopK(results, Candidates(s, q), ScoreOf(log, s, q), k)
    {
      hide Agrees, Score, ScoreOf, Candidates, SortHits, TopK, Scored;
      var q := tokenizer(query);
      if q == [] {
        return [];
      }
      var candidates := FindCandidates(q);
      ghost var s := State();
      if candidates == {} {
        NothingToRank(ScoreOf(log, s, q), k);
        return [];
      }
      CandidateStored(tokenizer, s, q);
      AverageIsPositive(tokenizer, s);
      var hits := ScoreAll(candidates, q);
      SortedIsTopK(hits, candidates, ScoreOf(log, s, q), k);
      results := SortHits(hits)[..Kept(|candidates|, k)];
    }
  }

  lemma NothingSums()
    ensures Sum(map[]) == 0
  {
  }

  lemma NothingScored(score: string -> real)
    ensures Scored([], {}, score)
  {
  }

  lemma ScoreIs(log: real -> real, s: Index, q: seq<string>, d: string)
    requires s.average > 0.0
    ensures ScoreOf(log, s, q)(d) == Score(log, s, d, q)
  {
  }

  lemma NothingToRank(score: string -> real, k: int)
    ensures TopK([], {}, score, k)
  {
  }

  lemma CandidateStored(tok: Tokenizer, s: Index, q: seq<string>)
    requires Agrees(tok, s) && q != [] && Candidates(s, q) != {}
    ensures s.docs != map[]
  {
    hide Agrees, Candidates, HasAll, HasAny;
    var d :| d in Candidates(s, q);
    CandidatesMean(tok, s, q, d);
  }

  lemma ScoredGrows(hits: seq<Hit>, candidates: set<string>, score: string -> real, d: string)
    requires Scored(hits, candidates, score) && d !in candidates
    ensures Scored(hits + [(d, score(d))], candidates + {d}, score)
  {
    var more := hits + [(d, score(d))];
    forall c | c in candidates + {d} ensures exists i :: 0 <= i < |more| && more[i].0 == c {
      if c == d {
        assert more[|hits|].0 == c;
      } else {
        var i :| 0 <= i < |hits| && hits[i].0 == c;
        assert more[i].0 == c;
      }
    }
  }
}
