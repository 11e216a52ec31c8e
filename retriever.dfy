/** The BM25 retrieval engine (`SimpleBM25Retriever`): index statistics
    built once from the corpus, the per-document BM25 score, and the ranked
    top-k list.

    The corpus is given as a sequence of documents (loading it from a
    directory is not part of this model), and the floating-point
    idf-times-saturation term of each matching query term is a parameter
    of the retriever, `weight`, known only to be non-negative. Everything
    else, which terms count, when a score is zero, the index statistics and
    the ordering, is modelled exactly. */
module Retriever {
  import opened Tokenizer
  import Ranking

  /** A corpus document: its id (the file name) and its text. */
  datatype Document = Document(docId: string, text: string)

  type NonNegReal = r: real | r >= 0.0

  /** The contribution of one matching query term, the idf factor times the
      term-saturation factor, as a function of the document count, the
      term's document frequency, its frequency in the document, the
      document's length and the average document length (already replaced by
      1.0 when the average is 0.0). The parameters k1 and b live inside it.
      Its result type takes every contribution to be defined and
      non-negative, which holds when k1 >= 0 and 0 <= b <= 1. */
  type TermWeight = (nat, nat, nat, nat, real) -> NonNegReal

  /** The corpus statistics that scoring reads. */
  datatype CorpusStats = CorpusStats(n: nat, df: map<string, nat>, avgDocLen: real)

  // ---------------------------------------------------------------------
  // Index statistics as functions of the corpus

  /** The number of documents whose tokens contain `term`. */
  function DocFreq(docs: seq<Document>, term: string): (r: nat)
    ensures r <= |docs|
  {
    if docs == [] then 0
    else
      DocFreq(docs[..|docs| - 1], term)
        + (if term in Tokens(docs[|docs| - 1].text) then 1 else 0)
  }

  /** The total number of tokens in the corpus. */
  function TotalLength(docs: seq<Document>): (r: nat)
    ensures forall i :: 0 <= i < |docs| ==> |Tokens(docs[i].text)| <= r
  {
    if docs == [] then 0
    else
      var init := docs[..|docs| - 1];
      assert forall i :: 0 <= i < |init| ==> init[i] == docs[i];
      TotalLength(init) + |Tokens(docs[|docs| - 1].text)|
  }

  /** The average document length, 0.0 for an empty corpus. */
  function AverageLength(docs: seq<Document>): (r: real)
    ensures 0.0 <= r <= TotalLength(docs) as real
    ensures |docs| == 0 ==> r == 0.0
  {
    Average(TotalLength(docs), |docs|)
  }

  /** `total` shared out evenly over `count`, 0.0 when `count` is 0. */
  function Average(total: nat, count: nat): (r: real)
    ensures 0.0 <= r <= total as real
    ensures count > 0 ==> r * count as real == total as real
    ensures count == 0 ==> r == 0.0
  {
    if count > 0 then total as real / count as real else 0.0
  }

  /** The `doc_lengths` dictionary: document id to token count, a later
      document overwriting an earlier one with the same id. */
  function DocLengths(docs: seq<Document>): (r: map<string, nat>)
    ensures |r| <= |docs|
  {
    if docs == [] then map[]
    else DocLengths(docs[..|docs| - 1])[docs[|docs| - 1].docId := |Tokens(docs[|docs| - 1].text)|]
  }

  /** The keys of `doc_lengths` are exactly the ids of the documents. */
  lemma {:induction false} DocLengthsKeys(docs: seq<Document>)
    ensures forall id :: id in DocLengths(docs) <==> exists i :: 0 <= i < |docs| && docs[i].docId == id
  {
    if docs != [] {
      var init, last := docs[..|docs| - 1], docs[|docs| - 1];
      var prev := DocLengths(init);
      assert DocLengths(docs) == prev[last.docId := |Tokens(last.text)|];
      DocLengthsKeys(init);
      forall id | id in DocLengths(docs) ensures exists i :: 0 <= i < |docs| && docs[i].docId == id {
        if id != last.docId {
          assert id in prev;
          var i :| 0 <= i < |init| && init[i].docId == id;
          assert docs[i] == init[i];
        }
      }
      forall i | 0 <= i < |docs| ensures docs[i].docId in DocLengths(docs) {
        if i < |init| {
          assert init[i] == docs[i];
        }
      }
    }
  }

  /** No two documents share an id (file names in one directory). */
  predicate DistinctIds(docs: seq<Document>) {
    forall i, j :: 0 <= i < j < |docs| ==> docs[i].docId != docs[j].docId
  }

  /** How each statistic changes when one more document is indexed. */
  lemma IndexStep(docs: seq<Document>, i: nat)
    requires i < |docs|
    ensures TotalLength(docs[..i + 1]) == TotalLength(docs[..i]) + |Tokens(docs[i].text)|
    ensures DocLengths(docs[..i + 1]) == DocLengths(docs[..i])[docs[i].docId := |Tokens(docs[i].text)|]
  {
    assert docs[..i + 1][..i] == docs[..i];
    assert docs[..i + 1][i] == docs[i];
  }

  /** `df` holds, for exactly the terms that occur in some document of
      `docs`, the number of documents they occur in. */
  ghost predicate IndexesDocFreq(df: map<string, nat>, docs: seq<Document>) {
    && (forall t :: t in df <==> DocFreq(docs, t) > 0)
    && (forall t :: t in df ==> df[t] == DocFreq(docs, t))
  }

  /** Adding 1 for each distinct term of document `i` turns the document
      frequencies of `docs[..i]` into those of `docs[..i + 1]`. */
  lemma DocFreqStep(before: map<string, nat>, after: map<string, nat>, docs: seq<Document>, i: nat)
    requires i < |docs| && IndexesDocFreq(before, docs[..i])
    requires forall t :: t in after <==> t in before || t in Tokens(docs[i].text)
    requires forall t :: t in after ==>
      after[t] == (if t in before then before[t] else 0) + (if t in Tokens(docs[i].text) then 1 else 0)
    ensures IndexesDocFreq(after, docs[..i + 1])
  {
    assert docs[..i + 1][..i] == docs[..i];
    assert docs[..i + 1][i] == docs[i];
    forall t ensures DocFreq(docs[..i + 1], t)
                     == DocFreq(docs[..i], t) + (if t in Tokens(docs[i].text) then 1 else 0) {
    }
  }

  // ---------------------------------------------------------------------
  // Sums of map values

  /** The sum of the values of `m` at `keys`. */
  ghost function SumOver<K>(m: map<K, nat>, keys: set<K>): nat
    requires keys <= m.Keys
  {
    if keys == {} then 0
    else
      var k :| k in keys;
      m[k] + SumOver(m, keys - {k})
  }

  /** The sum of all values of `m`. */
  ghost function SumValues<K>(m: map<K, nat>): nat {
    SumOver(m, m.Keys)
  }

  /** Any key can be taken out first. */
  lemma {:induction false} SumOverRemove<K>(m: map<K, nat>, keys: set<K>, k: K)
    requires keys <= m.Keys && k in keys
    ensures SumOver(m, keys) == m[k] + SumOver(m, keys - {k})
    decreases keys
  {
    var j :| j in keys && SumOver(m, keys) == m[j] + SumOver(m, keys - {j});
    if j != k {
      SumOverRemove(m, keys - {j}, k);
      SumOverRemove(m, keys - {k}, j);
      assert keys - {j} - {k} == keys - {k} - {j};
    }
  }

  /** The sum reads only the values at `keys`. */
  lemma {:induction false} SumOverAgree<K>(m1: map<K, nat>, m2: map<K, nat>, keys: set<K>)
    requires keys <= m1.Keys && keys <= m2.Keys
    requires forall k :: k in keys ==> m1[k] == m2[k]
    ensures SumOver(m1, keys) == SumOver(m2, keys)
    decreases keys
  {
    if keys != {} {
      var j :| j in keys;
      SumOverRemove(m1, keys, j);
      SumOverRemove(m2, keys, j);
      SumOverAgree(m1, m2, keys - {j});
    }
  }

  lemma SumValuesUpdate<K>(m: map<K, nat>, k: K, v: nat)
    ensures SumValues(m[k := v]) == SumValues(m) - (if k in m then m[k] else 0) + v
  {
    var u := m[k := v];
    SumOverRemove(u, u.Keys, k);
    SumOverAgree(u, m, m.Keys - {k});
    assert u.Keys - {k} == m.Keys - {k};
    if k in m {
      SumOverRemove(m, m.Keys, k);
    } else {
      assert m.Keys - {k} == m.Keys;
    }
  }

  /** With distinct ids, the `doc_lengths` values add up to the total
      token count, so `avg_doc_len` is their mean. */
  lemma {:induction false} DocLengthsSum(docs: seq<Document>)
    requires DistinctIds(docs)
    ensures SumValues(DocLengths(docs)) == TotalLength(docs)
  {
    if docs != [] {
      var init := docs[..|docs| - 1];
      var last := docs[|docs| - 1];
      assert DistinctIds(init);
      DocLengthsSum(init);
      SumValuesUpdate(DocLengths(init), last.docId, |Tokens(last.text)|);
      assert last.docId !in DocLengths(init) by {
        DocLengthsKeys(init);
        forall i | 0 <= i < |init| ensures init[i].docId != last.docId {
          assert init[i] == docs[i];
        }
      }
    }
  }

  /** With distinct ids, every document's entry is its own token count. */
  lemma {:induction false} DocLengthsLookup(docs: seq<Document>, i: nat)
    requires DistinctIds(docs) && i < |docs|
    ensures docs[i].docId in DocLengths(docs)
    ensures DocLengths(docs)[docs[i].docId] == |Tokens(docs[i].text)|
  {
    var init := docs[..|docs| - 1];
    if i < |docs| - 1 {
      assert DistinctIds(init) && init[i] == docs[i];
      DocLengthsLookup(init, i);
    }
  }

  /** The positions of the documents that contain `term`. */
  ghost function Containing(docs: seq<Document>, term: string): set<nat> {
    set i: nat | i < |docs| && term in Tokens(docs[i].text)
  }

  lemma ContainingStep(docs: seq<Document>, term: string)
    requires docs != []
    ensures var last := |docs| - 1;
      Containing(docs, term)
        == Containing(docs[..last], term) + (if term in Tokens(docs[last].text) then {last} else {})
  {
    var last := |docs| - 1;
    var init := docs[..last];
    forall i: nat ensures i in Containing(docs, term) <==>
        i in Containing(init, term) || (i == last && term in Tokens(docs[last].text)) {
      if i < last {
        assert init[i] == docs[i];
      }
    }
  }

  /** `df[term]` counts documents: it is the number of positions of
      documents that contain `term`. */
  lemma {:induction false} DocFreqCountsDocuments(docs: seq<Document>, term: string)
    ensures DocFreq(docs, term) == |Containing(docs, term)|
  {
    if docs != [] {
      var last := |docs| - 1;
      DocFreqCountsDocuments(docs[..last], term);
      ContainingStep(docs, term);
      assert last !in Containing(docs[..last], term);
    }
  }

  /** A term that occurs in some corpus document has a document frequency
      of at least 1. */
  lemma {:induction false} DocFreqPositive(docs: seq<Document>, i: nat, term: string)
    requires i < |docs| && term in Tokens(docs[i].text)
    ensures DocFreq(docs, term) >= 1
  {
    if i < |docs| - 1 {
      var init := docs[..|docs| - 1];
      assert init[i] == docs[i];
      DocFreqPositive(init, i, term);
    }
  }

  // ---------------------------------------------------------------------
  // Independence of the corpus order

  /** The sum of `f` over the documents. */
  function SumBy(docs: seq<Document>, f: Document -> nat): nat {
    if docs == [] then 0 else SumBy(docs[..|docs| - 1], f) + f(docs[|docs| - 1])
  }

  /** Taking one document out of the sum subtracts its own term. */
  lemma {:induction false} SumByRemove(docs: seq<Document>, f: Document -> nat, i: nat)
    requires i < |docs|
    ensures SumBy(docs, f) == SumBy(docs[..i] + docs[i + 1..], f) + f(docs[i])
  {
    var init := docs[..|docs| - 1];
    var removed := docs[..i] + docs[i + 1..];
    if i == |docs| - 1 {
      assert removed == init;
    } else {
      SumByRemove(init, f, i);
      assert removed[..|removed| - 1] == init[..i] + init[i + 1..];
      assert removed[|removed| - 1] == docs[|docs| - 1];
    }
  }

  /** Taking the document at `j` out of a corpus takes one copy of it out of
      the corpus multiset. */
  lemma MultisetWithout(docs: seq<Document>, j: nat)
    requires j < |docs|
    ensures multiset(docs[..j] + docs[j + 1..]) == multiset(docs) - multiset{docs[j]}
  {
    assert docs == docs[..j] + [docs[j]] + docs[j + 1..];
    assert multiset(docs) == multiset(docs[..j]) + multiset{docs[j]} + multiset(docs[j + 1..]);
  }

  /** A position holding a document of the corpus multiset. */
  lemma PositionOf(docs: seq<Document>, x: Document) returns (j: nat)
    requires x in multiset(docs)
    ensures j < |docs| && docs[j] == x
  {
    j :| 0 <= j < |docs| && docs[j] == x;
  }

  /** The sum does not depend on the order of the documents. */
  lemma {:induction false} SumByPermutation(d1: seq<Document>, d2: seq<Document>, f: Document -> nat)
    requires multiset(d1) == multiset(d2)
    ensures SumBy(d1, f) == SumBy(d2, f)
    decreases |d1|
  {
    if d1 == [] {
      assert |d2| == |multiset(d2)| == 0;
    } else {
      var n := |d1| - 1;
      var j := PositionOf(d2, d1[n]);
      MultisetWithout(d1, n);
      MultisetWithout(d2, j);
      assert d1[..n] + d1[n + 1..] == d1[..n];
      var rest := d2[..j] + d2[j + 1..];
      SumByPermutation(d1[..n], rest, f);
      SumByRemove(d2, f, j);
      assert SumBy(d1, f) == SumBy(d1[..n], f) + f(d1[n]);
    }
  }

  /** Whether a document contains `term`, as 1 or 0. */
  function ContainsTerm(term: string): Document -> nat {
    (d: Document) => if term in Tokens(d.text) then 1 else 0
  }

  /** The token count of a document. */
  function TokenCount(d: Document): nat {
    |Tokens(d.text)|
  }

  lemma {:induction false} DocFreqIsSum(docs: seq<Document>, term: string)
    ensures DocFreq(docs, term) == SumBy(docs, ContainsTerm(term))
  {
    if docs != [] {
      DocFreqIsSum(docs[..|docs| - 1], term);
    }
  }

  lemma {:induction false} TotalLengthIsSum(docs: seq<Document>)
    ensures TotalLength(docs) == SumBy(docs, TokenCount)
  {
    if docs != [] {
      TotalLengthIsSum(docs[..|docs| - 1]);
    }
  }

  /** Reordering the corpus changes no document frequency, nor the total
      or average length. */
  lemma CorpusOrderIrrelevant(d1: seq<Document>, d2: seq<Document>)
    requires multiset(d1) == multiset(d2)
    ensures forall t :: DocFreq(d1, t) == DocFreq(d2, t)
    ensures TotalLength(d1) == TotalLength(d2)
    ensures AverageLength(d1) == AverageLength(d2)
  {
    forall t ensures DocFreq(d1, t) == DocFreq(d2, t) {
      DocFreqIsSum(d1, t);
      DocFreqIsSum(d2, t);
      SumByPermutation(d1, d2, ContainsTerm(t));
    }
    TotalLengthIsSum(d1);
    TotalLengthIsSum(d2);
    SumByPermutation(d1, d2, TokenCount);
    assert |d1| == |multiset(d1)| == |multiset(d2)| == |d2|;
  }

  // ---------------------------------------------------------------------
  // BM25 scoring as functions

  /** The number of occurrences of `term` in `tokens`. */
  function Count(tokens: seq<string>, term: string): (r: nat)
    ensures r <= |tokens|
  {
    if tokens == [] then 0
    else Count(tokens[..|tokens| - 1], term) + (if tokens[|tokens| - 1] == term then 1 else 0)
  }

  lemma CountSnoc(s: seq<string>, x: string, t: string)
    ensures Count(s + [x], t) == Count(s, t) + (if x == t then 1 else 0)
  {
    assert (s + [x])[..|s|] == s;
  }

  /** `tf` is the term-frequency map of `tokens`. */
  ghost predicate IsTermFrequency(tf: map<string, nat>, tokens: seq<string>) {
    (forall t :: t in tf <==> t in tokens) &&
    (forall t :: t in tf ==> tf[t] == Count(tokens, t))
  }

  lemma {:induction false} CountPositive(tokens: seq<string>, t: string)
    ensures Count(tokens, t) > 0 <==> t in tokens
  {
    if tokens != [] {
      var init := tokens[..|tokens| - 1];
      CountPositive(init, t);
      assert tokens == init + [tokens[|tokens| - 1]];
    }
  }

  /** The term frequencies add up to the document length. */
  lemma {:induction false} TermFrequencySum(tf: map<string, nat>, tokens: seq<string>)
    requires IsTermFrequency(tf, tokens)
    ensures SumValues(tf) == |tokens|
  {
    if tokens != [] {
      var init := tokens[..|tokens| - 1];
      var last := tokens[|tokens| - 1];
      assert tokens == init + [last];
      CountPositive(init, last);
      var before := if last in init then tf[last := tf[last] - 1] else tf - {last};
      forall t ensures t in before <==> t in init {
        CountPositive(init, t);
      }
      assert IsTermFrequency(before, init);
      TermFrequencySum(before, init);
      SumValuesUpdate(before, last, tf[last]);
      assert before[last := tf[last]] == tf;
    }
  }

  /** The loop of `_bm25_score` that fills `tf`: one increment per token. */
  method TermFrequencies(tokens: seq<string>) returns (tf: map<string, nat>)
    ensures IsTermFrequency(tf, tokens)
  {
    tf := map[];
    for i := 0 to |tokens|
      invariant IsTermFrequency(tf, tokens[..i])
    {
      var t := tokens[i];
      tf := tf[t := (if t in tf then tf[t] else 0) + 1];
      assert tokens[..i + 1] == tokens[..i] + [t];
      forall u ensures Count(tokens[..i + 1], u) == Count(tokens[..i], u) + (if t == u then 1 else 0) {
        CountSnoc(tokens[..i], t, u);
      }
      CountPositive(tokens[..i], t);
    }
    assert tokens[..|tokens|] == tokens;
  }

  /** The document frequency recorded in the index, 0 for an unknown term. */
  function DfOf(stats: CorpusStats, term: string): (r: nat)
    ensures r > 0 ==> term in stats.df
  {
    if term in stats.df then stats.df[term] else 0
  }

  /** What one query token adds to a document's score: nothing when it is
      not among the document's tokens or has document frequency 0,
      otherwise the term weight. */
  function Contribution(weight: TermWeight, stats: CorpusStats, docTokens: seq<string>, term: string): (r: NonNegReal)
    ensures r > 0.0 ==> term in docTokens && DfOf(stats, term) > 0
  {
    if term !in docTokens || DfOf(stats, term) == 0 then 0.0
    else
      weight(stats.n, DfOf(stats, term), Count(docTokens, term), |docTokens|,
             if stats.avgDocLen == 0.0 then 1.0 else stats.avgDocLen)
  }

  /** The contributions of the query tokens, summed left to right. */
  function QueryScore(weight: TermWeight, stats: CorpusStats, queryTokens: seq<string>, docTokens: seq<string>): (r: real)
    ensures r >= 0.0
  {
    if queryTokens == [] then 0.0
    else
      QueryScore(weight, stats, queryTokens[..|queryTokens| - 1], docTokens)
        + Contribution(weight, stats, docTokens, queryTokens[|queryTokens| - 1])
  }

  /** What `_bm25_score` returns for a document with tokens `docTokens`. */
  function Bm25(weight: TermWeight, stats: CorpusStats, queryTokens: seq<string>, docTokens: seq<string>): (r: real)
    ensures r >= 0.0
  {
    if stats.n == 0 then 0.0
    else if |docTokens| == 0 then 0.0
    else QueryScore(weight, stats, queryTokens, docTokens)
  }

  /** Some query token occurs in the document and has a positive document
      frequency. */
  predicate MatchesIndexedTerm(stats: CorpusStats, queryTokens: seq<string>, docTokens: seq<string>) {
    exists j :: 0 <= j < |queryTokens| && queryTokens[j] in docTokens && DfOf(stats, queryTokens[j]) > 0
  }

  /** Every document that matches no indexed query token scores 0. */
  lemma UnmatchedScoresZero(weight: TermWeight, stats: CorpusStats, docs: seq<Document>, queryTokens: seq<string>)
    ensures forall i :: 0 <= i < |docs| && !MatchesIndexedTerm(stats, queryTokens, Tokens(docs[i].text)) ==>
      Bm25(weight, stats, queryTokens, Tokens(docs[i].text)) == 0.0
  {
    forall i | 0 <= i < |docs| && !MatchesIndexedTerm(stats, queryTokens, Tokens(docs[i].text))
      ensures Bm25(weight, stats, queryTokens, Tokens(docs[i].text)) == 0.0
    {
      Bm25ZeroCases(weight, stats, queryTokens, Tokens(docs[i].text));
    }
  }

  /** The (document, score) list that `retrieve` builds before sorting: the
      documents in corpus order, each with a non-negative score that is 0
      unless the document matches an indexed query token. */
  function ScoreAll(weight: TermWeight, stats: CorpusStats, docs: seq<Document>, queryTokens: seq<string>): (r: seq<(Document, real)>)
    ensures |r| == |docs|
    ensures forall i :: 0 <= i < |docs| ==>
      r[i] == (docs[i], Bm25(weight, stats, queryTokens, Tokens(docs[i].text)))
    ensures forall i :: 0 <= i < |r| ==> r[i].0 == docs[i] && r[i].1 >= 0.0
    ensures forall i :: 0 <= i < |r| && !MatchesIndexedTerm(stats, queryTokens, Tokens(docs[i].text)) ==>
      r[i].1 == 0.0
  {
    UnmatchedScoresZero(weight, stats, docs, queryTokens);
    seq(|docs|, i requires 0 <= i < |docs| => (docs[i], Bm25(weight, stats, queryTokens, Tokens(docs[i].text))))
  }

  /** Scoring one more document appends its pair. */
  lemma ScoreAllStep(weight: TermWeight, stats: CorpusStats, docs: seq<Document>, i: nat, queryTokens: seq<string>)
    requires i < |docs|
    ensures ScoreAll(weight, stats, docs[..i + 1], queryTokens)
         == ScoreAll(weight, stats, docs[..i], queryTokens)
            + [(docs[i], Bm25(weight, stats, queryTokens, Tokens(docs[i].text)))]
  {
    var next := ScoreAll(weight, stats, docs[..i + 1], queryTokens);
    var prev := ScoreAll(weight, stats, docs[..i], queryTokens);
    assert forall k :: 0 <= k < i ==> next[k] == prev[k];
  }

  /** The query score is additive over the query tokens: a repeated query
      token counts once per occurrence. */
  lemma {:induction false} QueryScoreAppend(weight: TermWeight, stats: CorpusStats, q1: seq<string>, q2: seq<string>, docTokens: seq<string>)
    ensures QueryScore(weight, stats, q1 + q2, docTokens)
         == QueryScore(weight, stats, q1, docTokens) + QueryScore(weight, stats, q2, docTokens)
    decreases |q2|
  {
    if q2 == [] {
      assert q1 + q2 == q1;
    } else {
      var init := q2[..|q2| - 1];
      assert (q1 + q2)[..|q1 + q2| - 1] == q1 + init;
      QueryScoreAppend(weight, stats, q1, init, docTokens);
    }
  }

  /** Query tokens that do not occur in the document, or that no corpus
      document contains, add nothing. */
  lemma {:induction false} QueryScoreNoMatch(weight: TermWeight, stats: CorpusStats, queryTokens: seq<string>, docTokens: seq<string>)
    requires forall i :: 0 <= i < |queryTokens| ==>
      queryTokens[i] !in docTokens || DfOf(stats, queryTokens[i]) == 0
    ensures QueryScore(weight, stats, queryTokens, docTokens) == 0.0
  {
    if queryTokens != [] {
      QueryScoreNoMatch(weight, stats, queryTokens[..|queryTokens| - 1], docTokens);
    }
  }

  /** The three cases in which `_bm25_score` is 0: an empty corpus, a
      document without tokens, and a query none of whose tokens both occurs
      in the document and has a positive document frequency. */
  lemma Bm25ZeroCases(weight: TermWeight, stats: CorpusStats, queryTokens: seq<string>, docTokens: seq<string>)
    ensures stats.n == 0 ==> Bm25(weight, stats, queryTokens, docTokens) == 0.0
    ensures |docTokens| == 0 ==> Bm25(weight, stats, queryTokens, docTokens) == 0.0
    ensures (forall i :: 0 <= i < |queryTokens| ==>
               queryTokens[i] !in docTokens || DfOf(stats, queryTokens[i]) == 0)
            ==> Bm25(weight, stats, queryTokens, docTokens) == 0.0
  {
    if forall i :: 0 <= i < |queryTokens| ==>
         queryTokens[i] !in docTokens || DfOf(stats, queryTokens[i]) == 0 {
      QueryScoreNoMatch(weight, stats, queryTokens, docTokens);
    }
  }

  /** A positive score needs a non-empty corpus, a non-empty document and
      a query token that occurs in the document with positive document
      frequency. */
  lemma Bm25PositiveHasMatch(weight: TermWeight, stats: CorpusStats, queryTokens: seq<string>, docTokens: seq<string>)
    requires Bm25(weight, stats, queryTokens, docTokens) > 0.0
    ensures stats.n > 0 && |docTokens| > 0
    ensures exists i :: 0 <= i < |queryTokens| && queryTokens[i] in docTokens && DfOf(stats, queryTokens[i]) > 0
  {
    Bm25ZeroCases(weight, stats, queryTokens, docTokens);
  }

  /** Otherwise the score is the sum of the matching tokens' weights: adding
      one more query token adds exactly its contribution. */
  lemma Bm25AddToken(weight: TermWeight, stats: CorpusStats, queryTokens: seq<string>, term: string, docTokens: seq<string>)
    requires stats.n > 0 && |docTokens| > 0
    ensures Bm25(weight, stats, queryTokens + [term], docTokens)
         == Bm25(weight, stats, queryTokens, docTokens) + Contribution(weight, stats, docTokens, term)
  {
    assert (queryTokens + [term])[..|queryTokens|] == queryTokens;
  }

  // ---------------------------------------------------------------------
  // The retriever

  class SimpleBm25Retriever {
    const weight: TermWeight
    var documents: seq<Document>
    var docLengths: map<string, nat>
    var avgDocLen: real
    var df: map<string, nat>
    var n: nat

    /** The index agrees with the corpus. */
    ghost predicate Valid()
      reads this
    {
      && n == |documents|
      && IndexesDocFreq(df, documents)
      && docLengths == DocLengths(documents)
      && avgDocLen == AverageLength(documents)
    }

    function Stats(): CorpusStats
      reads this
    {
      CorpusStats(n, df, avgDocLen)
    }

    /** `__init__`: take the corpus (what `_load_corpus` would read, in its
        order), set N, then build the index. */
    constructor (corpus: seq<Document>, weight: TermWeight)
      ensures Valid()
      ensures documents == corpus && this.weight == weight
    {
      this.weight := weight;
      documents := corpus;
      docLengths := map[];
      avgDocLen := 0.0;
      df := map[];
      n := |corpus|;
      new;
      BuildIndex();
    }

    /** `_build_index`: one pass over the documents, counting tokens and
        adding 1 to `df` for each distinct term of each document. */
    method BuildIndex()
      requires n == |documents|
      modifies this
      ensures Valid()
      ensures documents == old(documents)
    {
      var docs := documents;
      var totalLen: nat := 0;
      df := map[];
      docLengths := map[];
      for i := 0 to |docs|
        invariant documents == docs && n == |docs|
        invariant totalLen == TotalLength(docs[..i])
        invariant docLengths == DocLengths(docs[..i])
        invariant IndexesDocFreq(df, docs[..i])
      {
        var doc := docs[i];
        var tokens := Tokenize(doc.text);
        totalLen := totalLen + |tokens|;
        docLengths := docLengths[doc.docId := |tokens|];

        ghost var before := df;
        AddDocumentTerms(tokens);
        DocFreqStep(before, df, docs, i);
        IndexStep(docs, i);
      }
      assert docs[..|docs|] == docs;
      avgDocLen := if n > 0 then totalLen as real / n as real else 0.0;
    }

    /** The document-frequency update for one document: each distinct term
        of the document adds exactly 1. */
    method AddDocumentTerms(tokens: seq<string>)
      modifies this`df
      ensures forall t :: t in df <==> t in old(df) || t in tokens
      ensures forall t :: t in df ==>
        df[t] == (if t in old(df) then old(df)[t] else 0) + (if t in tokens then 1 else 0)
    {
      var seenTerms := set t | t in tokens;
      var pending := seenTerms;
      ghost var done: set<string> := {};
      while pending != {}
        invariant pending + done == seenTerms && pending !! done
        invariant forall t :: t in df <==> t in old(df) || t in done
        invariant forall t :: t in df ==>
          df[t] == (if t in old(df) then old(df)[t] else 0) + (if t in done then 1 else 0)
        decreases pending
      {
        var term :| term in pending;
        df := df[term := (if term in df then df[term] else 0) + 1];
        pending := pending - {term};
        done := done + {term};
      }
    }

    /** Every document frequency in the index lies between 1 and N. */
    lemma DfBounds()
      requires Valid()
      ensures forall t :: t in df ==> 1 <= df[t] <= n
    {
    }

    /** A query term that occurs in a corpus document is in the index, so
        scoring that document counts it with its full weight. */
    lemma CorpusTermCounts(i: nat, queryTokens: seq<string>, term: string)
      requires Valid() && i < |documents|
      requires term in Tokens(documents[i].text)
      ensures term in df && df[term] >= 1
      ensures Bm25(weight, Stats(), queryTokens + [term], Tokens(documents[i].text))
           == Bm25(weight, Stats(), queryTokens, Tokens(documents[i].text))
              + weight(n, df[term], Count(Tokens(documents[i].text), term),
                       |Tokens(documents[i].text)|, if avgDocLen == 0.0 then 1.0 else avgDocLen)
    {
      DocFreqPositive(documents, i, term);
      Bm25AddToken(weight, Stats(), queryTokens, term, Tokens(documents[i].text));
    }

    /** `_bm25_score`: the guards, the term-frequency map, then the sum of
        the contributions of the matching query tokens. */
    method Bm25Score(queryTokens: seq<string>, doc: Document) returns (score: real)
      requires Valid()
      ensures score == Bm25(weight, Stats(), queryTokens, Tokens(doc.text))
      ensures score >= 0.0
    {
      if n == 0 {
        return 0.0;
      }
      var docTokens := Tokenize(doc.text);
      var docLen := |docTokens|;
      if docLen == 0 {
        return 0.0;
      }
      var tf := TermFrequencies(docTokens);
      score := 0.0;
      for i := 0 to |queryTokens|
        invariant score == QueryScore(weight, Stats(), queryTokens[..i], docTokens)
      {
        var term := queryTokens[i];
        ghost var before := score;
        if term in tf {
          var d := if term in df then df[term] else 0;
          if d != 0 {
            var freq := tf[term];
            score := score + weight(n, d, freq, docLen, if avgDocLen == 0.0 then 1.0 else avgDocLen);
          }
        }
        assert score == before + Contribution(weight, Stats(), docTokens, term);
        assert queryTokens[..i + 1][..i] == queryTokens[..i];
      }
      assert queryTokens[..|queryTokens|] == queryTokens;
    }

    /** `retrieve`: score every document in corpus order, sort stably by
        descending score, keep the first `topK` (3 when not given). */
    method Retrieve(query: string, topK: nat := 3) returns (result: seq<(Document, real)>)
      requires Valid()
      ensures |result| == Ranking.Min(topK, |documents|)
      ensures forall p, q :: 0 <= p < q < |result| ==> result[p].1 >= result[q].1
      ensures Ranking.IsStableTopK(ScoreAll(weight, Stats(), documents, Tokens(query)), result, topK)
    {
      var tokens := Tokenize(query);
      var scores: seq<(Document, real)> := [];
      for i := 0 to |documents|
        invariant scores == ScoreAll(weight, Stats(), documents[..i], tokens)
      {
        var s := Bm25Score(tokens, documents[i]);
        ScoreAllStep(weight, Stats(), documents, i, tokens);
        scores := scores + [(documents[i], s)];
      }
      assert documents[..|documents|] == documents;
      var sorted := Ranking.SortByScoreDesc(scores);
      result := sorted[..Ranking.Min(topK, |sorted|)];
      assert Ranking.IsStableSortDesc(scores, sorted) && result == sorted[..|result|];
    }
  }

  /** Two retrievers over the same documents in different orders hold the
      same corpus statistics, so they give every document the same score. */
  lemma ScoresIgnoreCorpusOrder(r1: SimpleBm25Retriever, r2: SimpleBm25Retriever, queryTokens: seq<string>, docTokens: seq<string>)
    requires r1.Valid() && r2.Valid() && r1.weight == r2.weight
    requires multiset(r1.documents) == multiset(r2.documents)
    ensures r1.Stats() == r2.Stats()
    ensures Bm25(r1.weight, r1.Stats(), queryTokens, docTokens) == Bm25(r2.weight, r2.Stats(), queryTokens, docTokens)
  {
    CorpusOrderIrrelevant(r1.documents, r2.documents);
    assert |r1.documents| == |multiset(r1.documents)| == |multiset(r2.documents)| == |r2.documents|;
    forall t ensures t in r1.df <==> t in r2.df {
    }
    forall t | t in r1.df ensures r1.df[t] == r2.df[t] {
    }
    assert r1.df == r2.df;
  }

}
