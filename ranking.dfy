/** The ordering step of `SimpleBM25Retriever.retrieve`: an in-place sort
    of a list of (item, score) pairs by score, highest first. Python's sort is stable, also with `reverse=True`,
    so the result is ordered by descending score and pairs with equal scores
    keep their original relative order. That order is unique
    (`StableSortUnique`), so the insertion sort below yields the same list as
    the library sort. */
module Ranking {

  /** Position `a` of `scored` comes before position `b` in the stable
      descending order: a higher score first, and on equal scores the
      earlier position first. */
  predicate RanksBefore<T>(scored: seq<(T, real)>, a: nat, b: nat) {
    a < |scored| && b < |scored| &&
    (scored[a].1 > scored[b].1 || (scored[a].1 == scored[b].1 && a < b))
  }

  predicate Distinct(s: seq<nat>) {
    forall p, q :: 0 <= p < q < |s| ==> s[p] != s[q]
  }

  /** `perm` lists every index below `n` exactly once. */
  predicate IsPermutation(perm: seq<nat>, n: nat) {
    && |perm| == n
    && (forall k :: 0 <= k < n ==> perm[k] < n)
    && Distinct(perm)
    && (forall j :: 0 <= j < n ==> j in perm)
  }

  /** The positions listed in `perm` are in stable descending order. */
  predicate Ordered<T>(scored: seq<(T, real)>, perm: seq<nat>) {
    forall p, q :: 0 <= p < q < |perm| ==> RanksBefore(scored, perm[p], perm[q])
  }

  /** `sorted` lists the pairs of `scored` at the positions in `perm`. */
  ghost predicate Arranged<T>(scored: seq<(T, real)>, perm: seq<nat>, sorted: seq<(T, real)>) {
    |sorted| == |perm| &&
    forall k :: 0 <= k < |perm| ==> perm[k] < |scored| && sorted[k] == scored[perm[k]]
  }

  /** `sorted` is what a stable sort of `scored` by descending score gives. */
  ghost predicate IsStableSortDesc<T>(scored: seq<(T, real)>, sorted: seq<(T, real)>) {
    exists perm :: IsPermutation(perm, |scored|) && Arranged(scored, perm, sorted) && Ordered(scored, perm)
  }

  /** The smaller of two counts. */
  function Min(a: nat, b: nat): nat {
    if a <= b then a else b
  }

  /** `result` is the first `k` pairs (all of them when there are fewer) of
      the stable descending sort of `scored`. */
  ghost predicate IsStableTopK<T(!new)>(scored: seq<(T, real)>, result: seq<(T, real)>, k: nat) {
    && |result| == Min(k, |scored|)
    && exists sorted :: IsStableSortDesc(scored, sorted) && |result| <= |sorted| && result == sorted[..|result|]
  }

  /** Inserting position `i` right after every pair whose score is at least
      its own keeps the arrangement a stable descending order. */
  lemma InsertKeepsOrder<T>(scored: seq<(T, real)>, perm: seq<nat>, i: nat, pos: nat)
    requires i < |scored| && IsPermutation(perm, i) && Ordered(scored, perm)
    requires pos <= |perm|
    requires forall k :: 0 <= k < pos ==> scored[perm[k]].1 >= scored[i].1
    requires pos < |perm| ==> scored[perm[pos]].1 < scored[i].1
    ensures IsPermutation(perm[..pos] + [i] + perm[pos..], i + 1)
    ensures Ordered(scored, perm[..pos] + [i] + perm[pos..])
  {
    var next := perm[..pos] + [i] + perm[pos..];
    assert forall k :: 0 <= k < pos ==> next[k] == perm[k];
    assert next[pos] == i;
    assert forall k :: pos < k <= i ==> next[k] == perm[k - 1];
    forall j | 0 <= j < i + 1 ensures j in next {
      if j < i {
        assert j in perm;
        var k :| 0 <= k < |perm| && perm[k] == j;
        if k < pos { assert next[k] == j; } else { assert next[k + 1] == j; }
      }
    }
    forall p, q | 0 <= p < q < |next| ensures RanksBefore(scored, next[p], next[q]) {
      if q < pos {
      } else if q == pos {
        assert next[p] == perm[p];
      } else if p < pos {
        assert RanksBefore(scored, perm[p], perm[q - 1]);
      } else if p == pos {
        if pos < q - 1 {
          assert RanksBefore(scored, perm[pos], perm[q - 1]);
        }
      } else {
        assert RanksBefore(scored, perm[p - 1], perm[q - 1]);
      }
    }
  }

  /** Pairs arranged in stable descending order have non-increasing scores. */
  lemma OrderedScoresNonIncreasing<T>(scored: seq<(T, real)>, perm: seq<nat>, sorted: seq<(T, real)>)
    requires Arranged(scored, perm, sorted) && Ordered(scored, perm)
    ensures forall p, q :: 0 <= p < q < |sorted| ==> sorted[p].1 >= sorted[q].1
  {
    forall p, q | 0 <= p < q < |sorted| ensures sorted[p].1 >= sorted[q].1 {
      assert RanksBefore(scored, perm[p], perm[q]);
    }
  }

  /** The number of leading pairs whose score is at least `score`: where a
      pair with that score goes after all the earlier-placed equal ones. */
  method InsertionPoint<T>(sorted: seq<(T, real)>, score: real) returns (pos: nat)
    ensures pos <= |sorted|
    ensures forall k :: 0 <= k < pos ==> sorted[k].1 >= score
    ensures pos < |sorted| ==> sorted[pos].1 < score
  {
    pos := 0;
    while pos < |sorted| && sorted[pos].1 >= score
      invariant pos <= |sorted|
      invariant forall k :: 0 <= k < pos ==> sorted[k].1 >= score
    {
      pos := pos + 1;
    }
  }

  /** The stable sort by descending score, modelled as an
      insertion sort: each pair is inserted after every pair already placed
      whose score is at least its own. */
  method SortByScoreDesc<T>(scored: seq<(T, real)>) returns (sorted: seq<(T, real)>)
    ensures IsStableSortDesc(scored, sorted)
    ensures |sorted| == |scored|
    ensures forall p, q :: 0 <= p < q < |sorted| ==> sorted[p].1 >= sorted[q].1
  {
    sorted := [];
    ghost var perm: seq<nat> := [];
    for i := 0 to |scored|
      invariant IsPermutation(perm, i)
      invariant Arranged(scored, perm, sorted)
      invariant Ordered(scored, perm)
    {
      var pos := InsertionPoint(sorted, scored[i].1);
      InsertKeepsOrder(scored, perm, i, pos);
      sorted := sorted[..pos] + [scored[i]] + sorted[pos..];
      perm := perm[..pos] + [i] + perm[pos..];
    }
    OrderedScoresNonIncreasing(scored, perm, sorted);
  }

  /** Two arrangements of the same distinct positions, both in stable
      descending order, are the same arrangement. */
  lemma {:induction false} OrderedArrangementsEqual<T>(scored: seq<(T, real)>, p1: seq<nat>, p2: seq<nat>)
    requires Distinct(p1) && Distinct(p2)
    requires forall x :: x in p1 <==> x in p2
    requires Ordered(scored, p1) && Ordered(scored, p2)
    ensures p1 == p2
    decreases |p1|
  {
    assert p2 == [] || p2[0] in p2;
    if p1 != [] {
      assert p1[0] in p2;
      if p1[0] != p2[0] {
        assert false;
      }
      var t1, t2 := p1[1..], p2[1..];
      forall x ensures x in t1 <==> x in t2 {
        assert x in t1 <==> x in p1 && x != p1[0];
        assert x in t2 <==> x in p2 && x != p2[0];
      }
      OrderedArrangementsEqual(scored, t1, t2);
      assert p1 == [p1[0]] + t1 && p2 == [p2[0]] + t2;
    }
  }

  /** The stable descending order of a list is unique: any stable sort by
      descending score, Python's included, yields the same list. */
  lemma StableSortUnique<T>(scored: seq<(T, real)>, s1: seq<(T, real)>, s2: seq<(T, real)>)
    requires IsStableSortDesc(scored, s1) && IsStableSortDesc(scored, s2)
    ensures s1 == s2
  {
    var p1 :| IsPermutation(p1, |scored|) && Arranged(scored, p1, s1) && Ordered(scored, p1);
    var p2 :| IsPermutation(p2, |scored|) && Arranged(scored, p2, s2) && Ordered(scored, p2);
    forall x ensures x in p1 <==> x in p2 {
      if x in p1 {
        var k :| 0 <= k < |p1| && p1[k] == x;
      }
      if x in p2 {
        var k :| 0 <= k < |p2| && p2[k] == x;
      }
    }
    OrderedArrangementsEqual(scored, p1, p2);
  }
}
