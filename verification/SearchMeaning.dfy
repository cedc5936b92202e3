/** What the scores mean: over an index that agrees with its documents, BM25 ranks
    by occurrences, length and rarity of the query's tokens. */
module SearchMeaning {
  import opened InvertedIndices
  import opened IndexSearch

  // ---- Occurrences ----

  lemma {:induction false} CountIsOccurrences(tokens: seq<string>, t: string)
    ensures Count(tokens, t) == multiset(tokens)[t]
    decreases |tokens|
  {
    if tokens != [] {
      CountIsOccurrences(tokens[1..], t);
      assert tokens == [tokens[0]] + tokens[1..];
    }
  }

  /** How often a token occurs in a document. */
  function Occurs(tok: Tokenizer, s: Index, d: string, t: string): nat
    requires d in s.docs
  {
    multiset(tok(s.docs[d]))[t]
  }

  /** How many documents contain a token. */
  function Spread(tok: Tokenizer, s: Index, t: string): nat {
    |Containing(tok, s.docs, t)|
  }

  /** A logarithm, as far as ranking depends on it. */
  ghost predicate LogLike(log: real -> real) {
    log(1.0) == 0.0 && forall x, y :: 0.0 < x < y ==> log(x) < log(y)
  }

  // ---- One token ----

  function Weight(log: real -> real, n: nat, df: nat): real {
    log((n as real - df as real + 0.5) / (df as real + 0.5) + 1.0)
  }

  function Norm(length: nat, average: real): real
    requires average > 0.0
  {
    1.5 * (1.0 - 0.75 + 0.75 * length as real / average)
  }

  function Share(tf: nat, norm: real): real
    requires norm > 0.0
  {
    tf as real * (1.5 + 1.0) / (tf as real + norm)
  }

  lemma NormPositive(length: nat, average: real)
    requires average > 0.0
    ensures Norm(length, average) > 0.0
  {
    LengthPositive(0, length, average);
  }

  /** The score of one token, in terms of the documents. */
  lemma TermScoreIs(log: real -> real, tok: Tokenizer, s: Index, d: string, t: string)
    requires Agrees(tok, s) && d in s.docs && s.average > 0.0
    ensures Norm(|tok(s.docs[d])|, s.average) > 0.0
    ensures TermScore(log, s, d, t)
            == if Spread(tok, s, t) == 0 then 0.0
               else Weight(log, |s.docs|, Spread(tok, s, t)) *
                    Share(Occurs(tok, s, d, t), Norm(|tok(s.docs[d])|, s.average))
  {
    hide Agrees, Containing, PostingAgrees, Average;
    AgreesMeans(tok, s);
    PostedMeans(tok, s, t);
    NormPositive(|tok(s.docs[d])|, s.average);
    assert CountAgrees(tok, s.docs, s.counts, t);
    CountIsOccurrences(tok(s.docs[d]), t);
    ContainsIff(tok, s, d, t);
  }

  lemma ContainsIff(tok: Tokenizer, s: Index, d: string, t: string)
    requires d in s.docs
    ensures d in Containing(tok, s.docs, t) <==> t in tok(s.docs[d])
    ensures Occurs(tok, s, d, t) > 0 <==> t in tok(s.docs[d])
    ensures Occurs(tok, s, d, t) > 0 ==> 0 < Spread(tok, s, t)
    ensures Spread(tok, s, t) <= |s.docs|
  {
    assert Containing(tok, s.docs, t) <= s.docs.Keys;
    SubsetSize(Containing(tok, s.docs, t), s.docs.Keys);
  }

  lemma SubsetSize(a: set<string>, b: set<string>)
    requires a <= b
    ensures |a| <= |b|
  {
    assert b == a + (b - a);
  }

  lemma Cross(p: real, x: real, q: real, y: real)
    requires x > 0.0 && y > 0.0 && p * y < q * x
    ensures p / x < q / y
  {
    assert p / x == (p * y) / (x * y);
    assert q / y == (q * x) / (x * y);
    assert x * y > 0.0;
    Shrink(p * y, q * x, x * y);
  }

  lemma Shrink(a: real, b: real, c: real)
    requires a < b && c > 0.0
    ensures a / c < b / c
  {
  }

  /** A token some document contains weighs something, and a rarer one weighs more. */
  lemma WeightOrder(log: real -> real, n: nat, df: nat, more: nat)
    requires LogLike(log) && df <= n
    ensures Weight(log, n, df) > 0.0
    ensures df < more <= n ==> Weight(log, n, more) < Weight(log, n, df)
  {
    var p, x := n as real - df as real + 0.5, df as real + 0.5;
    assert p > 0.0 && x > 0.0;
    assert p / x > 0.0;
    assert log(1.0) < log(p / x + 1.0);
    if df < more <= n {
      var q, y := n as real - more as real + 0.5, more as real + 0.5;
      LessTimes(q, p, x, y);
      Cross(q, y, p, x);
      assert q / y > 0.0;
    }
  }

  lemma LessTimes(q: real, p: real, x: real, y: real)
    requires 0.0 < q < p && 0.0 < x < y
    ensures q * x < p * y
  {
    assert q * x < q * y;
    assert q * y < p * y;
  }

  lemma Grows(x: real, y: real, k: real)
    requires 0.0 <= x < y && k > 0.0
    ensures x * (1.5 + 1.0) / (x + k) < y * (1.5 + 1.0) / (y + k)
  {
    var p, q := x * (1.5 + 1.0), y * (1.5 + 1.0);
    assert p * (y + k) == 2.5 * (x * y) + 2.5 * (x * k);
    assert q * (x + k) == 2.5 * (x * y) + 2.5 * (y * k);
    assert x * k < y * k;
    Cross(p, x + k, q, y + k);
  }

  lemma Falls(x: real, k: real, l: real)
    requires 0.0 < x && 0.0 < k < l
    ensures x * (1.5 + 1.0) / (x + l) < x * (1.5 + 1.0) / (x + k)
  {
    var p := x * (1.5 + 1.0);
    assert p > 0.0;
    assert p * (x + k) < p * (x + l);
    Cross(p, x + l, p, x + k);
  }

  /** The share grows with the occurrences and falls with the length; without occurrences it is nothing. */
  lemma ShareOrder(a: nat, b: nat, norm: real, longer: real)
    requires 0.0 < norm
    ensures Share(0, norm) == 0.0 && Share(a, norm) >= 0.0 && (Share(a, norm) == 0.0 <==> a == 0)
    ensures a < b ==> Share(a, norm) < Share(b, norm)
    ensures a > 0 && norm < longer ==> Share(a, longer) < Share(a, norm)
  {
    assert Share(0, norm) == 0.0;
    if a > 0 {
      Grows(0.0, a as real, norm);
      if norm < longer {
        Falls(a as real, norm, longer);
      }
    }
    if a < b {
      Grows(a as real, b as real, norm);
    }
  }

  lemma NormOrder(a: nat, b: nat, average: real)
    requires average > 0.0 && a < b
    ensures Norm(a, average) < Norm(b, average)
  {
    assert 0.75 * a as real < 0.75 * b as real;
    Shrink(0.75 * a as real, 0.75 * b as real, average);
  }

  // ---- Two documents and one token ----

  /** How the score of one token depends on occurrences, length and rarity. */
  lemma TermOrder(log: real -> real, tok: Tokenizer, s: Index, d: string, e: string, t: string)
    requires LogLike(log) && Agrees(tok, s) && d in s.docs && e in s.docs && s.average > 0.0
    ensures TermScore(log, s, d, t) >= 0.0 && (TermScore(log, s, d, t) == 0.0 <==> Occurs(tok, s, d, t) == 0)
    ensures |tok(s.docs[d])| == |tok(s.docs[e])| && Occurs(tok, s, d, t) == Occurs(tok, s, e, t) ==>
              TermScore(log, s, d, t) == TermScore(log, s, e, t)
    ensures |tok(s.docs[d])| == |tok(s.docs[e])| && Occurs(tok, s, d, t) > Occurs(tok, s, e, t) ==>
              TermScore(log, s, d, t) > TermScore(log, s, e, t)
    ensures |tok(s.docs[d])| < |tok(s.docs[e])| && Occurs(tok, s, d, t) == Occurs(tok, s, e, t) > 0 ==>
              TermScore(log, s, d, t) > TermScore(log, s, e, t)
  {
    hide Agrees, TermScore, Share, Norm, Weight, Occurs, Spread;
    TermScoreIs(log, tok, s, d, t);
    TermScoreIs(log, tok, s, e, t);
    ContainsIff(tok, s, d, t);
    ContainsIff(tok, s, e, t);
    var w := Weight(log, |s.docs|, Spread(tok, s, t));
    var m, n := Norm(|tok(s.docs[d])|, s.average), Norm(|tok(s.docs[e])|, s.average);
    var a, b := Occurs(tok, s, d, t), Occurs(tok, s, e, t);
    WeightOrder(log, |s.docs|, Spread(tok, s, t), 0);
    ShareOrder(a, a, m, n);
    ShareOrder(b, a, n, n);
    Product(w, Share(a, m));
    Scaled(w, Share(b, n), Share(a, m));
    if |tok(s.docs[d])| < |tok(s.docs[e])| {
      NormOrder(|tok(s.docs[d])|, |tok(s.docs[e])|, s.average);
    }
  }

  lemma Product(w: real, x: real)
    requires w > 0.0 && x >= 0.0
    ensures w * x >= 0.0 && (w * x == 0.0 <==> x == 0.0)
  {
  }

  lemma Scaled(w: real, x: real, y: real)
    requires w > 0.0
    ensures x < y ==> w * x < w * y
  {
  }

  /** With equal occurrences in documents of equal length, the rarer of two tokens adds more. */
  lemma RarerAddsMore(log: real -> real, tok: Tokenizer, s: Index, d: string, t: string, e: string, u: string)
    requires LogLike(log) && Agrees(tok, s) && d in s.docs && e in s.docs && s.average > 0.0
    requires |tok(s.docs[d])| == |tok(s.docs[e])| && Occurs(tok, s, d, t) == Occurs(tok, s, e, u) > 0
    requires Spread(tok, s, t) < Spread(tok, s, u)
    ensures TermScore(log, s, d, t) > TermScore(log, s, e, u)
  {
    hide Agrees, TermScore, Share, Norm, Weight, Occurs, Spread;
    TermScoreIs(log, tok, s, d, t);
    TermScoreIs(log, tok, s, e, u);
    ContainsIff(tok, s, d, t);
    ContainsIff(tok, s, e, u);
    var m := Norm(|tok(s.docs[d])|, s.average);
    var share := Share(Occurs(tok, s, d, t), m);
    WeightOrder(log, |s.docs|, Spread(tok, s, t), Spread(tok, s, u));
    ShareOrder(Occurs(tok, s, d, t), 0, m, m);
    Scaled(share, Weight(log, |s.docs|, Spread(tok, s, u)), Weight(log, |s.docs|, Spread(tok, s, t)));
  }

  // ---- Whole queries ----

  /** No score is negative, and only documents without any of the query's tokens score nothing. */
  lemma {:induction false} ScorePositiveIff(log: real -> real, tok: Tokenizer, s: Index, d: string, q: seq<string>)
    requires LogLike(log) && Agrees(tok, s) && d in s.docs && s.average > 0.0
    ensures Score(log, s, d, q) >= 0.0
    ensures Score(log, s, d, q) == 0.0 <==> forall i :: 0 <= i < |q| ==> q[i] !in tok(s.docs[d])
    decreases |q|
  {
    hide Agrees, TermScore, Occurs, LogLike;
    if q != [] {
      var n := |q| - 1;
      ScorePositiveIff(log, tok, s, d, q[..n]);
      TermOrder(log, tok, s, d, d, q[n]);
      ContainsIff(tok, s, d, q[n]);
    }
  }

  /** Of two documents of equal length, the one with no fewer occurrences of any query token scores no less, and
      more if it has more of one. */
  lemma {:induction false} MoreOccurrencesScoreHigher(log: real -> real, tok: Tokenizer, s: Index, d: string, e: string,
                                                      q: seq<string>)
    requires LogLike(log) && Agrees(tok, s) && d in s.docs && e in s.docs && s.average > 0.0
    requires |tok(s.docs[d])| == |tok(s.docs[e])|
    requires forall i :: 0 <= i < |q| ==> Occurs(tok, s, d, q[i]) >= Occurs(tok, s, e, q[i])
    ensures Score(log, s, d, q) >= Score(log, s, e, q)
    ensures Score(log, s, d, q) > Score(log, s, e, q)
            <==> exists i :: 0 <= i < |q| && Occurs(tok, s, d, q[i]) > Occurs(tok, s, e, q[i])
    decreases |q|
  {
    hide Agrees, TermScore, Occurs, LogLike;
    if q != [] {
      var n := |q| - 1;
      MoreOccurrencesScoreHigher(log, tok, s, d, e, q[..n]);
      TermOrder(log, tok, s, d, e, q[n]);
    }
  }

  /** Of two documents in which every query token occurs equally often, the shorter scores no less, and more if
      any of them occurs. */
  lemma {:induction false} ShorterScoresHigher(log: real -> real, tok: Tokenizer, s: Index, d: string, e: string,
                                               q: seq<string>)
    requires LogLike(log) && Agrees(tok, s) && d in s.docs && e in s.docs && s.average > 0.0
    requires |tok(s.docs[d])| < |tok(s.docs[e])|
    requires forall i :: 0 <= i < |q| ==> Occurs(tok, s, d, q[i]) == Occurs(tok, s, e, q[i])
    ensures Score(log, s, d, q) >= Score(log, s, e, q)
    ensures Score(log, s, d, q) > Score(log, s, e, q) <==> exists i :: 0 <= i < |q| && Occurs(tok, s, d, q[i]) > 0
    decreases |q|
  {
    hide Agrees, TermScore, Occurs, LogLike;
    if q != [] {
      var n := |q| - 1;
      ShorterScoresHigher(log, tok, s, d, e, q[..n]);
      TermOrder(log, tok, s, d, e, q[n]);
      TermOrder(log, tok, s, e, d, q[n]);
    }
  }

  /** A token that occurs once in a document of average length adds its weight, and no number of occurrences adds
      two and a half times that. */
  lemma OnceAddsWeight(log: real -> real, tok: Tokenizer, s: Index, d: string, t: string)
    requires LogLike(log) && Agrees(tok, s) && d in s.docs && s.average > 0.0
    ensures var w := Weight(log, |s.docs|, Spread(tok, s, t));
            && TermScore(log, s, d, t) < 2.5 * w
            && (|tok(s.docs[d])| as real == s.average && Occurs(tok, s, d, t) == 1 ==> TermScore(log, s, d, t) == w)
  {
    hide Agrees, TermScore, Weight, Occurs, Spread;
    TermScoreIs(log, tok, s, d, t);
    ContainsIff(tok, s, d, t);
    var a, m, w := Occurs(tok, s, d, t), Norm(|tok(s.docs[d])|, s.average), Weight(log, |s.docs|, Spread(tok, s, t));
    WeightOrder(log, |s.docs|, Spread(tok, s, t), 0);
    BelowLimit(a as real, m);
    Scaled(w, Share(a, m), 2.5);
    if |tok(s.docs[d])| as real == s.average && a == 1 {
      OneAtAverage(s.average, |tok(s.docs[d])|);
    }
  }

  lemma BelowLimit(x: real, k: real)
    requires x >= 0.0 && k > 0.0
    ensures x * (1.5 + 1.0) / (x + k) < 2.5
  {
    Cross(x * (1.5 + 1.0), x + k, 2.5, 1.0);
  }

  lemma OneAtAverage(average: real, length: nat)
    requires average > 0.0 && length as real == average
    ensures Norm(length, average) == 1.5 && Share(1, 1.5) == 1.0
  {
    assert 0.75 * average / average == 0.75;
  }

  // ---- Search ----

  /** A search for one token, over documents of equal length, returns those in which it occurs most often, most
      often first; no document left out has it more often than one returned. */
  lemma OneTokenSearch(log: real -> real, tok: Tokenizer, s: Index, t: string, k: int, results: seq<Hit>)
    requires LogLike(log) && Agrees(tok, s) && s.average > 0.0
    requires forall d, e :: d in s.docs && e in s.docs ==> |tok(s.docs[d])| == |tok(s.docs[e])|
    requires TopK(results, Candidates(s, [t]), ScoreOf(log, s, [t]), k)
    ensures forall i :: 0 <= i < |results| ==> results[i].0 in s.docs && Occurs(tok, s, results[i].0, t) > 0
    ensures forall i, j :: 0 <= i < j < |results| ==> Occurs(tok, s, results[i].0, t) >= Occurs(tok, s, results[j].0, t)
    ensures forall d, i ::
              d in s.docs && 0 <= i < |results| && (forall j :: 0 <= j < |results| ==> results[j].0 != d) ==>
              Occurs(tok, s, d, t) <= Occurs(tok, s, results[i].0, t)
    ensures |results| == Kept(Spread(tok, s, t), k)
  {
    hide Agrees, Score, Occurs, LogLike, Candidates, Containing, HasAll, HasAny;
    OneTokenCandidates(tok, s, t);
    var score := ScoreOf(log, s, [t]);
    forall d, e | d in s.docs && e in s.docs && score(d) >= score(e)
        ensures Occurs(tok, s, d, t) >= Occurs(tok, s, e, t) {
      OneTokenOrder(log, tok, s, d, e, t);
    }
    forall d | d in s.docs ensures d in Containing(tok, s.docs, t) <==> Occurs(tok, s, d, t) > 0 {
      ContainsIff(tok, s, d, t);
    }
    forall i | 0 <= i < |results| ensures results[i].0 in s.docs && Occurs(tok, s, results[i].0, t) > 0 {
      ContainingStored(tok, s, t, results[i].0);
    }
  }

  lemma ContainingStored(tok: Tokenizer, s: Index, t: string, d: string)
    ensures d in Containing(tok, s.docs, t) ==> d in s.docs
  {
  }

  lemma OneTokenOrder(log: real -> real, tok: Tokenizer, s: Index, d: string, e: string, t: string)
    requires LogLike(log) && Agrees(tok, s) && d in s.docs && e in s.docs && s.average > 0.0
    requires |tok(s.docs[d])| == |tok(s.docs[e])| && Score(log, s, d, [t]) >= Score(log, s, e, [t])
    ensures Occurs(tok, s, d, t) >= Occurs(tok, s, e, t)
  {
    hide Agrees, Score, Occurs, LogLike;
    if Occurs(tok, s, d, t) < Occurs(tok, s, e, t) {
      assert [t][0] == t;
      MoreOccurrencesScoreHigher(log, tok, s, e, d, [t]);
    }
  }

  lemma OneTokenCandidates(tok: Tokenizer, s: Index, t: string)
    requires Agrees(tok, s)
    ensures Candidates(s, [t]) == Containing(tok, s.docs, t)
  {
    hide Agrees, Containing, Posted;
    PostedMeans(tok, s, t);
    assert [t][..0] == [];
    assert Any(s, []) == {};
  }
}
