# BM25 retriever and retrieval metrics in Dafny

This project models a small retrieval-evaluation harness. It has two parts.

The first is `SimpleBM25Retriever`, the retrieval engine. It tokenizes
documents and queries with lower-casing, whitespace splitting and
alphanumeric filtering. It builds index statistics once: the document
count `N`, per-document token counts, the average length, and the document
frequency of each term. It then scores each document for a query with a
BM25-style sum over the matching query terms. Finally it returns the
`top_k` documents (3 by default), stably sorted by descending score.

The second part is the per-query metrics: Hit@k, Recall@k, reciprocal rank,
and the record that bundles them.

The modules are:

- `Tokenizer` (`tokenizer.dfy`) covers `_tokenize`. The function `Tokens` is
  the specification. The method `Tokenize` is the nested loop, proved equal
  to `Tokens`. Lemmas cover the tokens' characters, blank input, the count
  bound, concatenation, idempotence, and the `"Hello, World!"` example.
- `Ranking` (`ranking.dfy`) covers the stable descending sort
  `scores.sort(key=..., reverse=True)`. The method is an insertion sort
  carrying a ghost permutation. It is proved to produce the stable
  descending order of its input. That order is proved unique, so the method
  returns the same list as any other stable sort.
- `Retriever` (`retriever.dfy`) holds `Document` and the index statistics
  as functions of the corpus. It also holds the BM25 score as a function,
  and the class `SimpleBm25Retriever`:
  - its fields `documents`, `docLengths`, `avgDocLen`, `df` and `n` are set
    by the constructor and the `BuildIndex` loop;
  - `Bm25Score` and `Retrieve` are proved against the specification
    functions.
- `Metrics` (`metrics.dfy`) models `retrieval_metrics.py` as pure functions
  and lemmas.

The idf times term-saturation factor at `src/retriever.py:95-98` is
floating point. It is modelled as a retriever constant `weight` of type
`TermWeight`, a function from (N, df, freq, doc length, average length or
1.0) to a non-negative real. The constants k1 and b live inside it.
Everything around that factor is modelled without abstraction, as exact
integers and reals:
- which query tokens contribute;
- the three zero-score cases;
- term and document frequencies;
- lengths, and the average length as an exact quotient where Python
  divides in floating point;
- ordering and truncation of the scores, taken as exact sums of the
  contributions.

The metrics' ratios `hits/|rel|` and `1/idx` are exact reals.

Characters are modelled as ASCII:
- whitespace is Python's ASCII `isspace` set: space, `\t` to `\r`, and
  `\x1c` to `\x1f`;
- `isalnum` is `[A-Za-z0-9]`;
- `lower` maps `A-Z` to `a-z`;
- any other character is neither space nor alphanumeric and is left
  unchanged by `lower`.

## Model

| member | source | states |
|---|---|---|
| Tokenizer.Lower | src/retriever.py:37 | the lowered character is never upper-case; being a space or alphanumeric is unchanged; non-upper characters are unchanged |
| Tokenizer.LowerText | src/retriever.py:37 | `text.lower()` keeps the length, leaves no upper-case character, and keeps every position's whitespace and alphanumeric class |
| Tokenizer.Word | src/retriever.py:37 | the first fragment of `split()`: the longest whitespace-free prefix, ending at the end of the text or at a whitespace character |
| Tokenizer.SplitWhitespace | src/retriever.py:37 | `str.split()` with no argument, defined as the maximal runs of non-whitespace from left to right; its properties are the three lemmas below |
| Tokenizer.SplitFragmentsNonEmpty | src/retriever.py:37 | every fragment of `split()` is non-empty |
| Tokenizer.SplitFragmentChars | src/retriever.py:37 | the fragments of `split()` are made only of non-whitespace characters of the text |
| Tokenizer.SplitBlank | src/retriever.py:37 | `split()` gives no fragment exactly when the text is all whitespace |
| Tokenizer.KeepAlnum | src/retriever.py:38 | a character is in the joined fragment exactly when it is an alphanumeric character of the raw fragment; the result is no longer than the fragment |
| Tokenizer.KeepAlnumAppend | src/retriever.py:38 | the filter keeps character order: filtering a concatenation gives the two filtered parts one after the other |
| Tokenizer.CleanAll | src/retriever.py:38-40 | at most one token per fragment |
| Tokenizer.CleanAllMembers | src/retriever.py:38-40 | a string is a token exactly when it is the non-empty cleaned form of some fragment |
| Tokenizer.CleanAllAppend | src/retriever.py:37-40 | tokens keep fragment order: the tokens of two fragment lists joined are the two token lists joined |
| Tokenizer.CleanFragment | src/retriever.py:38 | the character loop builds exactly the alphanumeric characters of the fragment, in order |
| Tokenizer.Tokens | src/retriever.py:34-41 | the list `_tokenize` returns, defined as lower-case, split, filter each fragment and drop the empty ones; `Tokenize` is proved equal to it and the lemmas below state its properties |
| Tokenizer.Tokenize | src/retriever.py:34-41 | the loop over fragments and characters returns exactly `Tokens(text)` |
| Tokenizer.TokensAreLowerAlnum | src/retriever.py:34-41 | every token is non-empty, alphanumeric and has no upper-case character |
| Tokenizer.BlankTextHasNoTokens | src/retriever.py:37-41 | empty or whitespace-only text has no tokens |
| Tokenizer.TokenCountBound | src/retriever.py:37-40 | there are at most as many tokens as whitespace-separated fragments |
| Tokenizer.TokensOfJoined | src/retriever.py:37-40 | the tokens of `a + space + b` are the tokens of `a` followed by those of `b`, in order, with duplicates kept |
| Tokenizer.SingleToken | src/retriever.py:37-40 | a lower-case alphanumeric word tokenizes to itself alone |
| Tokenizer.TokensOfNormalText | src/retriever.py:37-40 | space-joined normalised tokens tokenize back to the same list, in order and with duplicates |
| Tokenizer.TokenizeIdempotent | src/retriever.py:34-41 | tokenizing the space-joined tokens of a text gives those tokens again |
| Tokenizer.SingleFragment | src/retriever.py:38-40 | text without whitespace gives its lower-cased alphanumeric characters as one token, or no token when there are none |
| Tokenizer.WordWithPunctuation | src/retriever.py:37-40 | an alphanumeric word with trailing punctuation tokenizes to the lower-cased word |
| Tokenizer.HelloWorldExample | src/retriever.py:34-41 | `"Hello, World!"` tokenizes to `["hello", "world"]` |
| Retriever.SumByPermutation | src/retriever.py:57-68 | a per-document count summed over the corpus does not depend on the order of the documents |
| Retriever.CorpusOrderIrrelevant | src/retriever.py:55-70 | reordering the corpus changes no document frequency, nor the total or average length |
| Retriever.ScoresIgnoreCorpusOrder | src/retriever.py:55-100 | two valid retrievers over the same documents in any order hold equal statistics and give every document the same score |
| Retriever.TotalLength | src/retriever.py:57-63 | `total_len` after the loop: no document has more tokens than the total |
| Retriever.Average | src/retriever.py:70 | a total shared over a count: non-negative, at most the total, times the count gives the total, and 0.0 for a count of 0 |
| Retriever.AverageLength | src/retriever.py:70 | `avg_doc_len`: non-negative, at most the total length, and 0.0 for an empty corpus |
| Retriever.DocLengths | src/retriever.py:59-64 | `doc_lengths`, a later document overwriting an earlier one with the same id: no more entries than documents |
| Retriever.DocFreq | src/retriever.py:61-68 | the document frequency of a term never exceeds the number of documents |
| Retriever.DocLengthsKeys | src/retriever.py:59-64 | the keys of `doc_lengths` are exactly the ids of the corpus documents |
| Retriever.DocFreqCountsDocuments | src/retriever.py:61-68 | `df[term]` is the number of distinct document positions whose tokens contain the term, so repeats within a document add 1 |
| Retriever.DocFreqPositive | src/retriever.py:66-68 | a term of any document has document frequency at least 1 |
| Retriever.DocLengthsLookup | src/retriever.py:62-64 | with distinct ids, `doc_lengths[d.doc_id]` is the token count of `d` |
| Retriever.DocLengthsSum | src/retriever.py:57-64 | with distinct ids, the recorded lengths sum to the accumulated total |
| Retriever.Count | src/retriever.py:82-84 | the occurrences of a term among the tokens, never more than there are tokens |
| Retriever.CountPositive | src/retriever.py:83-84 | a term has a positive count exactly when it occurs among the tokens |
| Retriever.TermFrequencySum | src/retriever.py:82-84 | the values of the term-frequency map sum to the document length |
| Retriever.TermFrequencies | src/retriever.py:82-84 | the loop gives `tf[t]` equal to the occurrences of `t`, with a key for exactly the occurring terms |
| Retriever.DfOf | src/retriever.py:90 | `self.df.get(term, 0)`: only an indexed term has a positive document frequency |
| Retriever.Contribution | src/retriever.py:87-98 | one query token adds something only when it occurs in the document and has positive df; otherwise 0.0 |
| Retriever.QueryScore | src/retriever.py:86-100 | the summed contributions are never negative |
| Retriever.QueryScoreAppend | src/retriever.py:87-98 | the score is additive over query tokens, so a repeated query token counts once per occurrence |
| Retriever.QueryScoreNoMatch | src/retriever.py:87-92 | query tokens absent from the document or with df 0 contribute nothing |
| Retriever.Bm25 | src/retriever.py:72-100 | what `_bm25_score` returns, never negative; its zero cases and additivity are the lemmas below |
| Retriever.Bm25ZeroCases | src/retriever.py:72-100 | the score is 0 when N is 0, when the document has no tokens, or when no query token both occurs in it and has positive df |
| Retriever.Bm25PositiveHasMatch | src/retriever.py:72-100 | a positive score implies N > 0, a non-empty document and a matching query token with positive df |
| Retriever.UnmatchedScoresZero | src/retriever.py:86-92 | every document with no query token that occurs in it and has positive df scores 0.0 |
| Retriever.Bm25AddToken | src/retriever.py:86-98 | past the guards, one more query token adds exactly its contribution |
| Retriever.ScoreAll | src/retriever.py:108-111 | one pair per document, in corpus order, pairing the document with a non-negative score that is 0.0 whenever no query token both occurs in it and has positive df |
| Retriever.SimpleBm25Retriever.constructor | src/retriever.py:19-31 | after construction the corpus is stored and the index agrees with it (`Valid`) |
| Retriever.SimpleBm25Retriever.BuildIndex | src/retriever.py:55-70 | afterwards `df`, `doc_lengths` and `avg_doc_len` (total/N, or 0.0 when N is 0) agree with the corpus |
| Retriever.SimpleBm25Retriever.AddDocumentTerms | src/retriever.py:66-68 | each distinct term of the document adds exactly 1 to its df entry, creating it if missing, and no other entry changes |
| Retriever.SimpleBm25Retriever.DfBounds | src/retriever.py:61-68 | every `df[term]` lies between 1 and N |
| Retriever.SimpleBm25Retriever.CorpusTermCounts | src/retriever.py:87-98 | a query term occurring in a corpus document is indexed and adds its full weight to that document's score |
| Retriever.SimpleBm25Retriever.Bm25Score | src/retriever.py:72-100 | on a retriever whose index agrees with its corpus, `_bm25_score` returns the specified BM25 sum and is non-negative |
| Retriever.SimpleBm25Retriever.Retrieve | src/retriever.py:102-113 | on a retriever whose index agrees with its corpus, with `top_k` 3 unless given, exactly min(top_k, N) pairs with non-increasing scores, forming a prefix of the stable descending sort of the corpus-order scores |
| Ranking.InsertionPoint | src/retriever.py:112 | the insertion point follows every placed pair whose score is at least the new one and precedes the first lower score |
| Ranking.SortByScoreDesc | src/retriever.py:112 | the result is a permutation of the pairs in stable descending order of score, with equal scores keeping their input order |
| Ranking.StableSortUnique | src/retriever.py:112 | there is only one stable descending order, so the insertion sort agrees with Python's sort |
| Metrics.ToSet | src/retrieval_metrics.py:12-13 | the set holds exactly the ids of the list and is no larger than it |
| Metrics.HitAtK | src/retrieval_metrics.py:16-24 | the result is 0.0 or 1.0, and it is 1.0 exactly when some retrieved id is relevant |
| Metrics.RetrievedRelevant | src/retrieval_metrics.py:34 | the hits are relevant ids, at most as many as the relevant set; every retrieved relevant id is a hit and every hit occurs in the retrieved list; the hits are the whole relevant set exactly when every relevant id is retrieved |
| Metrics.RecallAtK | src/retrieval_metrics.py:27-35 | the result lies in [0, 1] and is 0.0 when nothing is relevant |
| Metrics.FirstRelevantRank | src/retrieval_metrics.py:47-50 | the scan returns the 1-based rank of the first relevant retrieved id, or none when no retrieved id is relevant |
| Metrics.MrrAtK | src/retrieval_metrics.py:38-50 | the result lies in [0, 1] and is 0.0 when nothing is relevant |
| Metrics.MrrIsReciprocalOfFirstRank | src/retrieval_metrics.py:47-49 | the reciprocal rank is 1/(i+1) when position i holds the first relevant id |
| Metrics.MrrZeroWithoutHit | src/retrieval_metrics.py:47-50 | the reciprocal rank is 0.0 when no retrieved id is relevant |
| Metrics.MrrPositiveIffHit | src/retrieval_metrics.py:24 | the reciprocal rank is positive exactly when Hit@k is 1.0 |
| Metrics.RecallPositiveIffHit | src/retrieval_metrics.py:34-35 | Recall@k is positive exactly when Hit@k is 1.0 |
| Metrics.RecallOneIffAllRetrieved | src/retrieval_metrics.py:34-35 | Recall@k is 1.0 exactly when there are relevant ids and all of them are retrieved |
| Metrics.MetricsDependOnlyOnRelevantSet | src/retrieval_metrics.py:12-13 | the three metrics ignore the order and duplicates of the relevant list |
| Metrics.EvaluateSingleQuery | src/retrieval_metrics.py:53-63 | the record's fields are the three metrics on the same arguments, with their ranges and the hit links |
| Metrics.HitCases | tests/test_retrieval_metrics.py:7-15 | Hit@k is 1.0 with a relevant id at rank 2 and 0.0 when none is retrieved, for any distinct ids |
| Metrics.RecallCases | tests/test_retrieval_metrics.py:17-26 | Recall@k is 0.5 when one of two relevant ids is retrieved and 1.0 when both are |
| Metrics.MrrCases | tests/test_retrieval_metrics.py:28-43 | the reciprocal rank is 1.0, 0.5 and 0.0 for a first relevant id at rank 1, at rank 2, and never |
| Metrics.UnitTestCases | tests/test_retrieval_metrics.py:7-43 | the seven unit-test expectations hold for the literal ids |

## Left out

- `_load_corpus` (`src/retriever.py:43-53`) lists a directory and reads files. The constructor instead takes the corpus as a sequence of documents, in the order the listing would give, and sets N to its length.
- The exact BM25 values: `math.log` and the floating-point division at `src/retriever.py:95-98` are the abstract `weight`. Golden scores and monotonicity in term frequency are not proved.
- Retriever.TermWeight: its result type assumes that every contribution is defined and non-negative. The idf factor is non-negative whenever df <= N, since its log argument is then at least 1. The saturation factor is safe when k1 >= 0 and 0 <= b <= 1, the defaults 1.5 and 0.75 among them; some other values are not: k1 = 2, b = 2, freq = 1 and length/average 0.25 make `denom` 0, and Python raises `ZeroDivisionError` at `src/retriever.py:98`; k1 = 2, b = 3 can make the contribution negative. That error path and negative contributions are not modelled.
- Floating point elsewhere: averages, metric ratios and the accumulation `score +=` at `src/retriever.py:98` are exact reals, with no rounding. Additivity of the score over query tokens and the ties seen by the sort hold for these exact sums, not for rounded doubles: 1.0 + 2^-53 rounds to 1.0, so two scores that differ exactly can tie in Python.
- Unicode behaviour of `str.lower`, `str.split` and `str.isalnum`: characters outside ASCII are treated as neither space nor alphanumeric and are left unchanged by lowering.
- Negative `top_k`: `Retrieve` takes a natural number, so Python's slicing from the end is not modelled.
- Python's timsort: `Ranking.SortByScoreDesc` is an insertion sort. `Ranking.StableSortUnique` shows that both sorts give the same list.
- Retriever.SimpleBm25Retriever.Retrieve: ties the result to the stable sort of `ScoreAll` rather than returning `Document` objects by identity. Python object identity and aliasing of the shared `Document` instances are not modelled.
- Retriever.DocLengthsLookup, Retriever.DocLengthsSum: assume distinct document ids, which file names in one directory have. With duplicate ids, `DocLengths` still models the overwrite, but the sum property is not stated.
- The fields `corpus_dir`, `k1` and `b` are not separate fields: `corpus_dir` belongs to the left-out loading, and `k1` and `b` live inside `weight`.
- `src/run_retrieval_eval.py` is not part of this model. It loads JSON, prints, writes a results file and averages floats across queries.
