/** The retrieval-quality metrics of one query: Hit@k, Recall@k and the
    reciprocal rank of the first relevant document. `retrieved` is the
    ranked id list (already cut to k by the caller) and `relevant` the
    labelled relevant ids, given as a list whose order and duplicates do not
    matter. The floating-point ratios are modelled as exact reals. */
module Metrics {

  datatype Option<T> = None | Some(value: T)

  /** `RetrievalMetrics`: the three metrics of one query. */
  datatype RetrievalMetrics = RetrievalMetrics(hitAtK: real, recallAtK: real, mrr: real)

  /** `_to_set`: the distinct ids of the list. */
  function ToSet(ids: seq<string>): (r: set<string>)
    ensures forall x :: x in r <==> x in ids
    ensures |r| <= |ids|
  {
    if ids == [] then {} else {ids[0]} + ToSet(ids[1..])
  }

  /** `hit_at_k`: 1.0 when some retrieved id is relevant, else 0.0 (so 0.0
      when nothing is relevant). */
  function HitAtK(retrieved: seq<string>, relevant: seq<string>): (r: real)
    ensures r == 0.0 || r == 1.0
    ensures r == 1.0 <==> exists i :: 0 <= i < |retrieved| && retrieved[i] in relevant
  {
    var rel := ToSet(relevant);
    if rel == {} then 0.0
    else if exists i :: 0 <= i < |retrieved| && retrieved[i] in rel then 1.0
    else 0.0
  }

  /** The distinct relevant ids that were retrieved. */
  function RetrievedRelevant(retrieved: seq<string>, rel: set<string>): (hits: set<string>)
    ensures hits <= rel && |hits| <= |rel|
    ensures hits == rel <==> forall d :: d in rel ==> d in retrieved
    ensures forall i :: 0 <= i < |retrieved| && retrieved[i] in rel ==> retrieved[i] in hits
    ensures forall d :: d in hits ==> exists i :: 0 <= i < |retrieved| && retrieved[i] == d
  {
    var hits := set d | d in rel && d in retrieved;
    SubsetCardinality(hits, rel);
    hits
  }

  lemma SubsetCardinality(a: set<string>, b: set<string>)
    requires a <= b
    ensures |a| <= |b|
    ensures |a| == |b| ==> a == b
  {
    assert b == a + (b - a);
    assert a !! (b - a);
    if |a| == |b| {
      assert |b - a| == 0;
    }
  }

  /** A count of at most `n` out of `n` is a ratio in [0, 1], and it is 1
      exactly when the count is `n`. */
  lemma RatioInUnit(h: nat, n: nat)
    requires 0 < n && h <= n
    ensures 0.0 <= h as real / n as real <= 1.0
    ensures h as real / n as real == 1.0 <==> h == n
  {
    var q := h as real / n as real;
    assert q * n as real == h as real;
  }

  /** `recall_at_k`: the fraction of the distinct relevant ids that were
      retrieved; 0.0 when nothing is relevant. */
  function RecallAtK(retrieved: seq<string>, relevant: seq<string>): (r: real)
    ensures 0.0 <= r <= 1.0
    ensures relevant == [] ==> r == 0.0
  {
    var rel := ToSet(relevant);
    if rel == {} then 0.0
    else
      var hits := RetrievedRelevant(retrieved, rel);
      SubsetCardinality(hits, rel);
      RatioInUnit(|hits|, |rel|);
      |hits| as real / |rel| as real
  }

  /** The left-to-right scan of `mrr_at_k` over the retrieved ids, from
      position `pos` on: the 1-based rank of the first relevant id, if any. */
  function FirstRelevantRank(retrieved: seq<string>, rel: set<string>, pos: nat): (r: Option<nat>)
    requires pos <= |retrieved|
    ensures r.Some? ==>
      && pos < r.value <= |retrieved|
      && retrieved[r.value - 1] in rel
      && forall j :: pos <= j < r.value - 1 ==> retrieved[j] !in rel
    ensures r.None? ==> forall j :: pos <= j < |retrieved| ==> retrieved[j] !in rel
    decreases |retrieved| - pos
  {
    if pos == |retrieved| then None
    else if retrieved[pos] in rel then Some(pos + 1)
    else FirstRelevantRank(retrieved, rel, pos + 1)
  }

  /** `mrr_at_k`: 1/rank of the first relevant id, 0.0 when there is none
      or nothing is relevant. */
  function MrrAtK(retrieved: seq<string>, relevant: seq<string>): (r: real)
    ensures 0.0 <= r <= 1.0
    ensures relevant == [] ==> r == 0.0
  {
    var rel := ToSet(relevant);
    if rel == {} then 0.0
    else
      match FirstRelevantRank(retrieved, rel, 0)
      case Some(rank) => 1.0 / rank as real
      case None => 0.0
  }

  // ---------------------------------------------------------------------
  // Properties

  /** The reciprocal rank is 1/(i+1) for the first relevant position i. */
  lemma MrrIsReciprocalOfFirstRank(retrieved: seq<string>, relevant: seq<string>, i: nat)
    requires i < |retrieved| && retrieved[i] in relevant
    requires forall j :: 0 <= j < i ==> retrieved[j] !in relevant
    ensures MrrAtK(retrieved, relevant) == 1.0 / (i + 1) as real
  {
    var rel := ToSet(relevant);
    var r := FirstRelevantRank(retrieved, rel, 0);
    assert r.Some? && r.value == i + 1;
  }

  /** The reciprocal rank is 0 when no retrieved id is relevant. */
  lemma MrrZeroWithoutHit(retrieved: seq<string>, relevant: seq<string>)
    requires forall j :: 0 <= j < |retrieved| ==> retrieved[j] !in relevant
    ensures MrrAtK(retrieved, relevant) == 0.0
  {
    var rel := ToSet(relevant);
    if rel != {} {
      assert FirstRelevantRank(retrieved, rel, 0).None?;
    }
  }

  /** The reciprocal rank is positive exactly when Hit@k is 1. */
  lemma MrrPositiveIffHit(retrieved: seq<string>, relevant: seq<string>)
    ensures MrrAtK(retrieved, relevant) > 0.0 <==> HitAtK(retrieved, relevant) == 1.0
  {
    var rel := ToSet(relevant);
    if exists i :: 0 <= i < |retrieved| && retrieved[i] in relevant {
      var i :| 0 <= i < |retrieved| && retrieved[i] in relevant;
      var first := FirstRelevantRank(retrieved, rel, 0);
      assert first.Some?;
    } else {
      MrrZeroWithoutHit(retrieved, relevant);
    }
  }

  /** Recall@k is positive exactly when Hit@k is 1. */
  lemma RecallPositiveIffHit(retrieved: seq<string>, relevant: seq<string>)
    ensures RecallAtK(retrieved, relevant) > 0.0 <==> HitAtK(retrieved, relevant) == 1.0
  {
    var rel := ToSet(relevant);
    if rel != {} {
      var hits := RetrievedRelevant(retrieved, rel);
      RatioInUnit(|hits|, |rel|);
      assert RecallAtK(retrieved, relevant) == |hits| as real / |rel| as real;
      if exists i :: 0 <= i < |retrieved| && retrieved[i] in relevant {
        var i :| 0 <= i < |retrieved| && retrieved[i] in relevant;
        assert retrieved[i] in hits;
      } else {
        assert forall d :: d !in hits;
        assert hits == {};
      }
    }
  }

  /** Recall@k is 1 exactly when there are relevant ids and every one of
      them was retrieved. */
  lemma RecallOneIffAllRetrieved(retrieved: seq<string>, relevant: seq<string>)
    ensures RecallAtK(retrieved, relevant) == 1.0 <==>
      relevant != [] && forall d :: d in relevant ==> d in retrieved
  {
    var rel := ToSet(relevant);
    var hits := RetrievedRelevant(retrieved, rel);
    SubsetCardinality(hits, rel);
    if rel != {} {
      RatioInUnit(|hits|, |rel|);
      assert RecallAtK(retrieved, relevant) == |hits| as real / |rel| as real;
      assert relevant != [];
      if forall d :: d in relevant ==> d in retrieved {
        assert hits == rel;
      }
      if |hits| == |rel| {
        forall d | d in relevant ensures d in retrieved {
          assert d in hits;
        }
      }
    }
  }

  /** All three metrics see `relevant` only through its set of ids: order
      and duplicates do not matter. */
  lemma MetricsDependOnlyOnRelevantSet(retrieved: seq<string>, relevant1: seq<string>, relevant2: seq<string>)
    requires forall d :: d in relevant1 <==> d in relevant2
    ensures HitAtK(retrieved, relevant1) == HitAtK(retrieved, relevant2)
    ensures RecallAtK(retrieved, relevant1) == RecallAtK(retrieved, relevant2)
    ensures MrrAtK(retrieved, relevant1) == MrrAtK(retrieved, relevant2)
  {
    assert ToSet(relevant1) == ToSet(relevant2);
  }

  /** `evaluate_single_query`: the three metrics on the same arguments. */
  function EvaluateSingleQuery(retrieved: seq<string>, relevant: seq<string>): (m: RetrievalMetrics)
    ensures m.hitAtK == HitAtK(retrieved, relevant)
    ensures m.recallAtK == RecallAtK(retrieved, relevant)
    ensures m.mrr == MrrAtK(retrieved, relevant)
    ensures m.hitAtK == 0.0 || m.hitAtK == 1.0
    ensures 0.0 <= m.recallAtK <= 1.0 && 0.0 <= m.mrr <= 1.0
    ensures m.mrr > 0.0 <==> m.hitAtK == 1.0
    ensures m.recallAtK > 0.0 <==> m.hitAtK == 1.0
  {
    MrrPositiveIffHit(retrieved, relevant);
    RecallPositiveIffHit(retrieved, relevant);
    RetrievalMetrics(
      HitAtK(retrieved, relevant),
      RecallAtK(retrieved, relevant),
      MrrAtK(retrieved, relevant))
  }

  /** Distinct ids used by the unit-test cases below. */
  predicate TestIdsApart(d1: string, d2: string, d3: string, d4: string) {
    d1 != d2 && d1 != d3 && d1 != d4 && d2 != d3 && d2 != d4 && d3 != d4
  }

  lemma TestIdsDistinct()
    ensures TestIdsApart("doc1.txt", "doc2.txt", "doc3.txt", "doc4.txt")
  {
    var d1, d2, d3, d4 := "doc1.txt", "doc2.txt", "doc3.txt", "doc4.txt";
    assert d1[3] != d2[3] && d1[3] != d3[3] && d2[3] != d3[3];
    assert d4[3] != d1[3] && d4[3] != d2[3] && d4[3] != d3[3];
  }

  /** Hit@k cases: a relevant id at rank 2 is a hit; none retrieved is not. */
  lemma HitCases(d1: string, d2: string, d3: string, d4: string)
    requires TestIdsApart(d1, d2, d3, d4)
    ensures HitAtK([d1, d2, d3], [d2]) == 1.0
    ensures HitAtK([d1, d3], [d2]) == 0.0
  {
    assert [d1, d2, d3][1] in [d2];
    assert forall i :: 0 <= i < 2 ==> [d1, d3][i] !in [d2];
  }

  /** Recall@k cases: one of two relevant ids gives 1/2, both give 1. */
  lemma RecallCases(d1: string, d2: string, d3: string, d4: string)
    requires TestIdsApart(d1, d2, d3, d4)
    ensures RecallAtK([d1, d2], [d2, d3]) == 0.5
    ensures RecallAtK([d2, d3], [d2, d3]) == 1.0
  {
    assert ToSet([d2, d3]) == {d2, d3};
    assert RetrievedRelevant([d1, d2], {d2, d3}) == {d2};
    RecallOneIffAllRetrieved([d2, d3], [d2, d3]);
  }

  /** Reciprocal-rank cases: first relevant at rank 1, at rank 2, never. */
  lemma MrrCases(d1: string, d2: string, d3: string, d4: string)
    requires TestIdsApart(d1, d2, d3, d4)
    ensures MrrAtK([d2, d1, d3], [d2, d3]) == 1.0
    ensures MrrAtK([d1, d3, d2], [d2, d3]) == 0.5
    ensures MrrAtK([d1, d4], [d2, d3]) == 0.0
  {
    MrrIsReciprocalOfFirstRank([d2, d1, d3], [d2, d3], 0);
    MrrIsReciprocalOfFirstRank([d1, d3, d2], [d2, d3], 1);
    MrrZeroWithoutHit([d1, d4], [d2, d3]);
  }

  /** The cases of the unit tests of the metrics. */
  lemma UnitTestCases()
    ensures HitAtK(["doc1.txt", "doc2.txt", "doc3.txt"], ["doc2.txt"]) == 1.0
    ensures HitAtK(["doc1.txt", "doc3.txt"], ["doc2.txt"]) == 0.0
    ensures RecallAtK(["doc1.txt", "doc2.txt"], ["doc2.txt", "doc3.txt"]) == 0.5
    ensures RecallAtK(["doc2.txt", "doc3.txt"], ["doc2.txt", "doc3.txt"]) == 1.0
    ensures MrrAtK(["doc2.txt", "doc1.txt", "doc3.txt"], ["doc2.txt", "doc3.txt"]) == 1.0
    ensures MrrAtK(["doc1.txt", "doc3.txt", "doc2.txt"], ["doc2.txt", "doc3.txt"]) == 0.5
    ensures MrrAtK(["doc1.txt", "doc4.txt"], ["doc2.txt", "doc3.txt"]) == 0.0
  {
    var d1, d2, d3, d4 := "doc1.txt", "doc2.txt", "doc3.txt", "doc4.txt";
    TestIdsDistinct();
    HitCases(d1, d2, d3, d4);
    RecallCases(d1, d2, d3, d4);
    MrrCases(d1, d2, d3, d4);
  }
}
