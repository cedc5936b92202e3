/** The inverted index of fulltext_search.py: what it keeps step by step is what
    a rebuild from the stored documents would give, and search answers from it. */
module InvertedIndices {
  type Tokenizer = string -> seq<string>

  datatype Index = Index(
    docs: map<string, string>,
    postings: map<string, set<string>>,
    counts: map<string, map<string, nat>>,
    lengths: map<string, nat>,
    average: real)

  const Empty := Index(map[], map[], map[], map[], 0.0)

  function Count(tokens: seq<string>, t: string): (n: nat)
    ensures n > 0 <==> t in tokens
  {
    if tokens == [] then 0 else (if tokens[0] == t then 1 else 0) + Count(tokens[1..], t)
  }

  function Tokens(tokens: seq<string>): set<string> {
    set t | t in tokens
  }

  // ---- Sums over a dictionary's values ----

  ghost function Sum(m: map<string, nat>): nat
    decreases |m|
  {
    if m == map[] then 0
    else
      var k :| k in m;
      Smaller(m, k);
      m[k] + Sum(m - {k})
  }

  lemma Smaller(m: map<string, nat>, k: string)
    requires k in m
    ensures |m - {k}| == |m| - 1
  {
    assert (m - {k}).Keys == m.Keys - {k};
    assert |m| == |m.Keys| && |m - {k}| == |(m - {k}).Keys|;
  }

  /** The values can be added up in any order. */
  lemma {:induction false} SumPicks(m: map<string, nat>, k: string)
    requires k in m
    ensures Sum(m) == m[k] + Sum(m - {k})
    decreases |m|
  {
    var j :| j in m && Sum(m) == m[j] + Sum(m - {j});
    if j != k {
      Smaller(m, j);
      Smaller(m, k);
      SumPicks(m - {j}, k);
      SumPicks(m - {k}, j);
      assert m - {j} - {k} == m - {k} - {j};
    }
  }

  // ---- What the documents alone give ----

  /** The documents containing a token. */
  function Containing(tok: Tokenizer, docs: map<string, string>, t: string): set<string> {
    set d | d in docs && t in tok(docs[d])
  }

  function AllTokens(tok: Tokenizer, docs: map<string, string>): set<string> {
    set d, i | d in docs && 0 <= i < |tok(docs[d])| :: tok(docs[d])[i]
  }

  ghost function Average(lengths: map<string, nat>, n: nat): real {
    if n == 0 then 0.0 else Sum(lengths) as real / n as real
  }

  ghost function Rebuild(tok: Tokenizer, docs: map<string, string>): Index {
    var lengths := map d | d in docs :: |tok(docs[d])|;
    Index(docs,
          map t | t in AllTokens(tok, docs) :: Containing(tok, docs, t),
          map t | t in AllTokens(tok, docs) :: TokenCounts(tok, docs, t),
          lengths,
          Average(lengths, |docs|))
  }

  /** The index is the rebuild of its documents, none of which is without tokens. */
  ghost predicate Agrees(tok: Tokenizer, s: Index) {
    s == Rebuild(tok, s.docs) && forall d :: d in s.docs ==> tok(s.docs[d]) != []
  }

  // ---- Adding and removing ----

  type Postings = map<string, set<string>>

  type Counts = map<string, map<string, nat>>

  /** An absent token counts as one without documents, as in the source's defaultdict. */
  function Posted(postings: Postings, t: string): set<string> {
    if t in postings then postings[t] else {}
  }

  function Counted(counts: Counts, t: string): map<string, nat> {
    if t in counts then counts[t] else map[]
  }

  function AddPostings(postings: Postings, tokens: seq<string>, id: string): Postings {
    map t | t in postings.Keys + Tokens(tokens) :: Posted(postings, t) + if t in tokens then {id} else {}
  }

  function AddCounts(counts: Counts, tokens: seq<string>, id: string): Counts {
    map t | t in counts.Keys + Tokens(tokens) ::
      if t in tokens then Counted(counts, t)[id := Count(tokens, t)] else counts[t]
  }

  /** Tokens left without documents are dropped. */
  function RemovePostings(postings: Postings, tokens: seq<string>, id: string): Postings {
    map t | t in postings && (t in tokens ==> postings[t] - {id} != {}) ::
      if t in tokens then postings[t] - {id} else postings[t]
  }

  function RemoveCounts(counts: Counts, id: string): Counts {
    map t | t in counts && (id in counts[t] ==> counts[t] - {id} != map[]) :: counts[t] - {id}
  }

  ghost function AddDocument(tok: Tokenizer, s: Index, id: string, text: string): (Index, bool) {
    var tokens := tok(text);
    if tokens == [] then (s, false)
    else
      var lengths, docs := s.lengths[id := |tokens|], s.docs[id := text];
      (Index(docs, AddPostings(s.postings, tokens, id), AddCounts(s.counts, tokens, id), lengths,
             Average(lengths, |docs|)),
       true)
  }

  ghost function RemoveDocument(tok: Tokenizer, s: Index, id: string): (Index, bool) {
    if id !in s.docs then (s, false)
    else
      var tokens, lengths, docs := tok(s.docs[id]), s.lengths - {id}, s.docs - {id};
      (Index(docs, RemovePostings(s.postings, tokens, id), RemoveCounts(s.counts, id), lengths,
             Average(lengths, |docs|)),
       true)
  }

  lemma TokensOf(tok: Tokenizer, docs: map<string, string>, t: string)
    ensures t in AllTokens(tok, docs) <==> Containing(tok, docs, t) != {}
  {
    if t in AllTokens(tok, docs) {
      var d, i :| d in docs && 0 <= i < |tok(docs[d])| && tok(docs[d])[i] == t;
      assert d in Containing(tok, docs, t);
    }
    if Containing(tok, docs, t) != {} {
      var d :| d in Containing(tok, docs, t);
      var i :| 0 <= i < |tok(docs[d])| && tok(docs[d])[i] == t;
    }
  }

  /** One token's postings are the documents that contain it. */
  ghost predicate PostingAgrees(tok: Tokenizer, docs: map<string, string>, postings: Postings, t: string) {
    Posted(postings, t) == Containing(tok, docs, t) && (t in postings ==> postings[t] != {})
  }

  ghost predicate CountAgrees(tok: Tokenizer, docs: map<string, string>, counts: Counts, t: string) {
    && Counted(counts, t).Keys == Containing(tok, docs, t) && (t in counts ==> counts[t] != map[])
    && forall d :: d in Counted(counts, t) ==> Counted(counts, t)[d] == Count(tok(docs[d]), t)
  }

  ghost predicate LengthsAgree(tok: Tokenizer, s: Index) {
    && s.lengths.Keys == s.docs.Keys && (forall d :: d in s.docs ==> s.lengths[d] == |tok(s.docs[d])| > 0)
    && s.average == Average(s.lengths, |s.docs|)
  }

  lemma PostingsRebuilt(tok: Tokenizer, docs: map<string, string>, postings: Postings)
    ensures postings == (map t | t in AllTokens(tok, docs) :: Containing(tok, docs, t))
            <==> forall t :: PostingAgrees(tok, docs, postings, t)
  {
    hide Containing, AllTokens;
    var r := map t | t in AllTokens(tok, docs) :: Containing(tok, docs, t);
    forall t ensures t in r <==> Containing(tok, docs, t) != {} {
      TokensOf(tok, docs, t);
    }
    if forall t :: PostingAgrees(tok, docs, postings, t) {
      forall t ensures (t in postings <==> t in r) && (t in r ==> postings[t] == r[t]) {
        assert PostingAgrees(tok, docs, postings, t);
      }
      assert postings == r;
    }
  }

  function TokenCounts(tok: Tokenizer, docs: map<string, string>, t: string): map<string, nat> {
    map d | d in Containing(tok, docs, t) :: Count(tok(docs[d]), t)
  }

  lemma CountsRebuilt(tok: Tokenizer, docs: map<string, string>, counts: Counts)
    ensures counts == (map t | t in AllTokens(tok, docs) :: TokenCounts(tok, docs, t))
            <==> forall t :: CountAgrees(tok, docs, counts, t)
  {
    hide AllTokens, TokenCounts, CountAgrees;
    var r := map t | t in AllTokens(tok, docs) :: TokenCounts(tok, docs, t);
    forall t ensures CountAgrees(tok, docs, counts, t)
                     <==> (t in counts <==> t in r) && (t in r ==> counts[t] == r[t])
    {
      TokensOf(tok, docs, t);
      CountIs(tok, docs, counts, t);
    }
    if forall t :: CountAgrees(tok, docs, counts, t) {
      assert forall t :: (t in counts <==> t in r) && (t in r ==> counts[t] == r[t]);
      assert counts == r;
    }
  }

  lemma CountIs(tok: Tokenizer, docs: map<string, string>, counts: Counts, t: string)
    ensures CountAgrees(tok, docs, counts, t)
            <==> (t in counts <==> Containing(tok, docs, t) != {})
                 && (t in counts ==> counts[t] == TokenCounts(tok, docs, t))
  {
    hide Containing, Count;
    assert TokenCounts(tok, docs, t).Keys == Containing(tok, docs, t);
  }

  /** Agreement, token by token and document by document. */
  lemma AgreesMeans(tok: Tokenizer, s: Index)
    ensures Agrees(tok, s) <==>
            && LengthsAgree(tok, s)
            && (forall t :: PostingAgrees(tok, s.docs, s.postings, t))
            && (forall t :: CountAgrees(tok, s.docs, s.counts, t))
  {
    hide PostingAgrees, CountAgrees, Average, AllTokens, Containing, TokenCounts;
    PostingsRebuilt(tok, s.docs, s.postings);
    CountsRebuilt(tok, s.docs, s.counts);
    if LengthsAgree(tok, s) {
      assert s.lengths == Rebuild(tok, s.docs).lengths;
    }
  }

  lemma ContainingAdded(tok: Tokenizer, docs: map<string, string>, id: string, text: string, t: string)
    ensures Containing(tok, docs[id := text], t)
            == if t in tok(text) then Containing(tok, docs, t) + {id} else Containing(tok, docs, t) - {id}
  {
  }

  lemma ContainingRemoved(tok: Tokenizer, docs: map<string, string>, id: string, t: string)
    ensures Containing(tok, docs - {id}, t) == Containing(tok, docs, t) - {id}
    ensures id in docs && t !in tok(docs[id]) ==> id !in Containing(tok, docs, t)
    ensures Containing(tok, docs, t) <= docs.Keys
  {
  }

  lemma AddPosted(postings: Postings, tokens: seq<string>, id: string, t: string)
    ensures Posted(AddPostings(postings, tokens, id), t) == Posted(postings, t) + if t in tokens then {id} else {}
    ensures t in AddPostings(postings, tokens, id) <==> t in postings || t in tokens
  {
    assert Posted(postings, t) + {} == Posted(postings, t);
  }

  lemma RemovePosted(postings: Postings, tokens: seq<string>, id: string, t: string)
    requires t in postings ==> postings[t] != {}
    ensures Posted(RemovePostings(postings, tokens, id), t) == Posted(postings, t) - if t in tokens then {id} else {}
    ensures t in RemovePostings(postings, tokens, id) ==> RemovePostings(postings, tokens, id)[t] != {}
  {
    assert Posted(postings, t) - {} == Posted(postings, t);
  }

  lemma AddCounted(counts: Counts, tokens: seq<string>, id: string, t: string)
    ensures Counted(AddCounts(counts, tokens, id), t)
            == if t in tokens then Counted(counts, t)[id := Count(tokens, t)] else Counted(counts, t)
    ensures t in AddCounts(counts, tokens, id) <==> t in counts || t in tokens
  {
    hide Count;
  }

  lemma RemoveCounted(counts: Counts, id: string, t: string)
    requires t in counts ==> counts[t] != map[]
    ensures Counted(RemoveCounts(counts, id), t) == Counted(counts, t) - {id}
    ensures t in RemoveCounts(counts, id) ==> RemoveCounts(counts, id)[t] != map[]
  {
    if t in counts && id !in counts[t] {
      assert counts[t] - {id} == counts[t];
    }
    var nothing: map<string, nat> := map[];
    assert nothing - {id} == nothing;
  }

  lemma AddedPosting(tok: Tokenizer, s: Index, id: string, text: string, t: string)
    requires PostingAgrees(tok, s.docs, s.postings, t)
    ensures var docs, fits := s.docs[id := text], id in Containing(tok, s.docs, t) ==> t in tok(text);
            PostingAgrees(tok, docs, AddPostings(s.postings, tok(text), id), t) <==> fits
  {
    hide Containing, AddPostings;
    ContainingAdded(tok, s.docs, id, text, t);
    AddPosted(s.postings, tok(text), id, t);
    if t in AddPostings(s.postings, tok(text), id) {
      assert Posted(AddPostings(s.postings, tok(text), id), t) == AddPostings(s.postings, tok(text), id)[t];
      if t !in tok(text) {
        assert t in s.postings;
      } else {
        assert id in Posted(AddPostings(s.postings, tok(text), id), t);
      }
    }
  }

  lemma AddedCount(tok: Tokenizer, s: Index, id: string, text: string, t: string)
    requires CountAgrees(tok, s.docs, s.counts, t)
    ensures var docs, fits := s.docs[id := text], id in Containing(tok, s.docs, t) ==> t in tok(text);
            CountAgrees(tok, docs, AddCounts(s.counts, tok(text), id), t) <==> fits
  {
    hide Containing, AddCounts, Count;
    ContainingAdded(tok, s.docs, id, text, t);
    AddCounted(s.counts, tok(text), id, t);
    var counts := AddCounts(s.counts, tok(text), id);
    assert t in counts ==> Counted(counts, t) == counts[t];
    if t in tok(text) {
      assert Counted(counts, t).Keys == Counted(s.counts, t).Keys + {id};
    }
  }

  lemma RemovedPosting(tok: Tokenizer, s: Index, id: string, t: string)
    requires id in s.docs && PostingAgrees(tok, s.docs, s.postings, t)
    ensures PostingAgrees(tok, s.docs - {id}, RemovePostings(s.postings, tok(s.docs[id]), id), t)
  {
    hide Containing, RemovePostings;
    ContainingRemoved(tok, s.docs, id, t);
    RemovePosted(s.postings, tok(s.docs[id]), id, t);
    var own := Containing(tok, s.docs, t);
    assert t !in tok(s.docs[id]) ==> own - {} == own - {id};
  }

  lemma RemovedCount(tok: Tokenizer, s: Index, id: string, t: string)
    requires id in s.docs && CountAgrees(tok, s.docs, s.counts, t)
    ensures CountAgrees(tok, s.docs - {id}, RemoveCounts(s.counts, id), t)
  {
    hide Count, Containing, RemoveCounts;
    ContainingRemoved(tok, s.docs, id, t);
    RemoveCounted(s.counts, id, t);
    assert (Counted(s.counts, t) - {id}).Keys == Counted(s.counts, t).Keys - {id};
  }

  /** Adding under a fresh id is what a rebuild would do. */
  lemma AddAgrees(tok: Tokenizer, s: Index, id: string, text: string)
    requires Agrees(tok, s) && id !in s.docs
    ensures Agrees(tok, AddDocument(tok, s, id, text).0)
  {
    hide Agrees, AllTokens, TokenCounts, AddPostings, AddCounts;
    if tok(text) != [] {
      ContainingOnlyStored(tok, s.docs, id);
      AgreesMeans(tok, s);
      AgreesMeans(tok, AddDocument(tok, s, id, text).0);
      AddTokens(tok, s, id, text);
      AddLengths(tok, s, id, text);
    }
  }

  lemma ContainingOnlyStored(tok: Tokenizer, docs: map<string, string>, id: string)
    ensures forall t :: id in Containing(tok, docs, t) ==> id in docs && t in tok(docs[id])
    ensures forall t :: id in docs && t in tok(docs[id]) ==> id in Containing(tok, docs, t)
  {
  }

  lemma AddTokens(tok: Tokenizer, s: Index, id: string, text: string)
    requires forall t :: PostingAgrees(tok, s.docs, s.postings, t)
    requires forall t :: CountAgrees(tok, s.docs, s.counts, t)
    ensures var docs, postings := s.docs[id := text], AddPostings(s.postings, tok(text), id);
            var counts := AddCounts(s.counts, tok(text), id);
            && ((forall t :: PostingAgrees(tok, docs, postings, t))
                <==> forall t :: id in Containing(tok, s.docs, t) ==> t in tok(text))
            && ((forall t :: CountAgrees(tok, docs, counts, t))
                <==> forall t :: id in Containing(tok, s.docs, t) ==> t in tok(text))
  {
    hide PostingAgrees, CountAgrees, Containing, AddPostings, AddCounts;
    var docs, postings := s.docs[id := text], AddPostings(s.postings, tok(text), id);
    var counts := AddCounts(s.counts, tok(text), id);
    forall t ensures PostingAgrees(tok, docs, postings, t) <==> (id in Containing(tok, s.docs, t) ==> t in tok(text)) {
      assert PostingAgrees(tok, s.docs, s.postings, t) && CountAgrees(tok, s.docs, s.counts, t);
      AddedPosting(tok, s, id, text, t);
    }
    forall t ensures CountAgrees(tok, docs, counts, t) <==> (id in Containing(tok, s.docs, t) ==> t in tok(text)) {
      assert PostingAgrees(tok, s.docs, s.postings, t) && CountAgrees(tok, s.docs, s.counts, t);
      AddedCount(tok, s, id, text, t);
    }
  }

  lemma AddLengths(tok: Tokenizer, s: Index, id: string, text: string)
    requires LengthsAgree(tok, s) && tok(text) != []
    ensures LengthsAgree(tok, AddDocument(tok, s, id, text).0)
  {
    hide Average, AddPostings, AddCounts;
  }

  lemma RemoveAgrees(tok: Tokenizer, s: Index, id: string)
    requires Agrees(tok, s)
    ensures Agrees(tok, RemoveDocument(tok, s, id).0)
  {
    hide Agrees, PostingAgrees, CountAgrees, AllTokens, TokenCounts, RemovePostings, RemoveCounts;
    if id in s.docs {
      AgreesMeans(tok, s);
      AgreesMeans(tok, RemoveDocument(tok, s, id).0);
      forall t
        ensures PostingAgrees(tok, s.docs - {id}, RemovePostings(s.postings, tok(s.docs[id]), id), t)
        ensures CountAgrees(tok, s.docs - {id}, RemoveCounts(s.counts, id), t)
      {
        RemovedPosting(tok, s, id, t);
        RemovedCount(tok, s, id, t);
      }
      RemoveLengths(tok, s, id);
    }
  }

  lemma RemoveLengths(tok: Tokenizer, s: Index, id: string)
    requires LengthsAgree(tok, s)
    ensures LengthsAgree(tok, RemoveDocument(tok, s, id).0)
  {
    hide Average, RemovePostings, RemoveCounts;
  }

  /** Removing a freshly added document leaves no trace of it. */
  lemma RemoveUndoesAdd(tok: Tokenizer, s: Index, id: string, text: string)
    requires Agrees(tok, s) && id !in s.docs && tok(text) != []
    ensures RemoveDocument(tok, AddDocument(tok, s, id, text).0, id).0 == s
  {
    hide Average, AllTokens, TokenCounts, Containing, AddPostings, AddCounts, RemovePostings, RemoveCounts;
    AddAgrees(tok, s, id, text);
    RemoveAgrees(tok, AddDocument(tok, s, id, text).0, id);
    assert s.docs[id := text] - {id} == s.docs;
  }

  /** Adding under an id that is taken leaves the old document's other tokens behind: the index agrees
      if and only if the new text has every token of the old one. */
  lemma ReaddAgreesIff(tok: Tokenizer, s: Index, id: string, text: string)
    requires Agrees(tok, s) && id in s.docs && tok(text) != []
    ensures Agrees(tok, AddDocument(tok, s, id, text).0) <==> Tokens(tok(s.docs[id])) <= Tokens(tok(text))
  {
    hide Agrees, PostingAgrees, CountAgrees, AllTokens, Containing, TokenCounts, AddPostings, AddCounts;
    AgreesMeans(tok, s);
    AgreesMeans(tok, AddDocument(tok, s, id, text).0);
    ContainingOnlyStored(tok, s.docs, id);
    AddTokens(tok, s, id, text);
    AddLengths(tok, s, id, text);
    if Tokens(tok(s.docs[id])) <= Tokens(tok(text)) {
      forall t | t in tok(s.docs[id]) ensures t in tok(text) {
        assert t in Tokens(tok(s.docs[id]));
      }
    }
  }

  /** A tokenizer that takes a text for one token. */
  const OneToken: Tokenizer := (text: string) => if text == "" then [] else [text]

  lemma OnePosted(postings: Postings, token: string, id: string, t: string)
    ensures Posted(AddPostings(postings, [token], id), t) == Posted(postings, t) + if t == token then {id} else {}
  {
  }

  lemma OneAdd(s: Index, id: string, text: string)
    requires text != ""
    ensures var s' := AddDocument(OneToken, s, id, text).0;
            s'.docs == s.docs[id := text] && s'.postings == AddPostings(s.postings, [text], id)
  {
    hide Average, AddCounts, AddPostings;
    assert OneToken(text) == [text];
  }

  /** Adding "a" and then "b" under one id leaves the document listed under both tokens. */
  lemma ReaddLeavesOldToken()
    ensures var s := AddDocument(OneToken, AddDocument(OneToken, Empty, "d", "a").0, "d", "b").0;
            s.docs == map["d" := "b"] && Posted(s.postings, "a") == {"d"} && !Agrees(OneToken, s)
  {
    hide Agrees, AddDocument, Rebuild, AddPostings;
    EmptyAgrees(OneToken);
    AddAgrees(OneToken, Empty, "d", "a");
    OneAdd(Empty, "d", "a");
    var s := AddDocument(OneToken, Empty, "d", "a").0;
    OneAdd(s, "d", "b");
    OnePosted(Empty.postings, "a", "d", "a");
    OnePosted(s.postings, "b", "d", "a");
    assert map["d" := "a"]["d" := "b"] == map["d" := "b"];
    assert OneToken(s.docs["d"]) == ["a"] && OneToken("b") == ["b"];
    ReaddAgreesIff(OneToken, s, "d", "b");
    assert "a" in Tokens(["a"]) && "a" !in Tokens(["b"]);
  }

  // ---- Runs ----

  datatype Operation = Add(id: string, text: string) | Remove(id: string)

  ghost function Apply(tok: Tokenizer, s: Index, op: Operation): Index {
    match op
    case Add(id, text) => AddDocument(tok, s, id, text).0
    case Remove(id) => RemoveDocument(tok, s, id).0
  }

  ghost function ApplyAll(tok: Tokenizer, s: Index, run: seq<Operation>): Index
    decreases |run|
  {
    if run == [] then s else ApplyAll(tok, Apply(tok, s, run[0]), run[1..])
  }

  /** No document is added under an id in use. */
  ghost predicate FreshAdds(tok: Tokenizer, s: Index, run: seq<Operation>)
    decreases |run|
  {
    run != [] ==> (run[0].Add? ==> run[0].id !in s.docs) && FreshAdds(tok, Apply(tok, s, run[0]), run[1..])
  }

  /** Over every run the index is the rebuild of the documents it stores. */
  lemma {:induction false} RunAgrees(tok: Tokenizer, s: Index, run: seq<Operation>)
    requires Agrees(tok, s) && FreshAdds(tok, s, run)
    ensures Agrees(tok, ApplyAll(tok, s, run))
    decreases |run|
  {
    hide Agrees, AddDocument, RemoveDocument;
    if run != [] {
      match run[0] {
        case Add(id, text) => AddAgrees(tok, s, id, text);
        case Remove(id) => RemoveAgrees(tok, s, id);
      }
      RunAgrees(tok, Apply(tok, s, run[0]), run[1..]);
    }
  }

  lemma EmptyAgrees(tok: Tokenizer)
    ensures Agrees(tok, Empty)
  {
    assert AllTokens(tok, map[]) == {};
  }
}
