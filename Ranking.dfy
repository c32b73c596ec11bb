/** Ranked search over a list, independent of how an item is scored: keep the
    items that get a score, in list order, then order them by descending score
    with ties left in list order. */
module Ranking {
  import opened Wrappers
  import opened Linq

  /** The (score, item) pairs of the items that get a score, in list order. */
  function ScoredHits<T>(items: seq<T>, rank: T -> Option<int>): (r: seq<(int, T)>)
    ensures forall p :: p in r ==> p.1 in items && rank(p.1) == Some(p.0)
  {
    if items == [] then []
    else (if rank(items[0]).Some? then [(rank(items[0]).value, items[0])] else []) + ScoredHits(items[1..], rank)
  }

  lemma {:induction false} ScoredHitsAppend<T>(items: seq<T>, x: T, rank: T -> Option<int>)
    ensures ScoredHits(items + [x], rank) == ScoredHits(items, rank) + ScoredHits([x], rank)
  {
    if items == [] {
      assert items + [x] == [x];
    } else {
      assert (items + [x])[0] == items[0];
      assert (items + [x])[1..] == items[1..] + [x];
      ScoredHitsAppend(items[1..], x, rank);
    }
  }

  lemma ScoredHitsSingle<T>(x: T, rank: T -> Option<int>)
    ensures ScoredHits([x], rank) == if rank(x).Some? then [(rank(x).value, x)] else []
  {
  }

  /** The scored pairs of a three-item list whose first item is a miss. */
  lemma ScoredHitsOfMissThenTwo<T>(x: T, y: T, z: T, rank: T -> Option<int>)
    requires rank(x).None? && rank(y).Some? && rank(z).Some?
    ensures ScoredHits([x, y, z], rank) == [(rank(y).value, y), (rank(z).value, z)]
  {
    var items := [x, y, z];
    assert items[1..] == [y, z] && items[1..][1..] == [z];
    ScoredHitsSingle(z, rank);
    assert ScoredHits([y, z], rank) == [(rank(y).value, y)] + ScoredHits([z], rank);
    assert ScoredHits(items, rank) == ScoredHits([y, z], rank);
  }

  /** Two pairs already in descending order stay as they are. */
  lemma RankedPairInOrder<T>(a: int, y: T, b: int, z: T)
    requires a >= b
    ensures Items(OrderByDescending([(a, y), (b, z)])) == [y, z]
  {
    var pairs := [(a, y), (b, z)];
    assert pairs[1..] == [(b, z)] && pairs[1..][1..] == [];
    assert OrderByDescending([(b, z)]) == [(b, z)];
    assert OrderByDescending(pairs) == pairs;
  }

  /** The items that get a score, in list order. */
  function Hits<T>(items: seq<T>, rank: T -> Option<int>): (r: seq<T>)
    ensures |r| <= |items|
    ensures forall x :: x in r ==> x in items && rank(x).Some?
    ensures forall x :: x in items && rank(x).Some? ==> x in r
  {
    if items == [] then []
    else (if rank(items[0]).Some? then [items[0]] else []) + Hits(items[1..], rank)
  }

  /** The items with score `k`, in list order. */
  function WithRank<T>(items: seq<T>, rank: T -> Option<int>, k: int): seq<T> {
    if items == [] then []
    else (if rank(items[0]) == Some(k) then [items[0]] else []) + WithRank(items[1..], rank, k)
  }

  /** The ranked list: hits by descending score, the stable way. */
  function Ranked<T>(items: seq<T>, rank: T -> Option<int>): seq<T> {
    Items(OrderByDescending(ScoredHits(items, rank)))
  }

  lemma {:induction false} ScoredHitsAreHits<T>(items: seq<T>, rank: T -> Option<int>)
    ensures Items(ScoredHits(items, rank)) == Hits(items, rank)
  {
    if items != [] {
      ScoredHitsAreHits(items[1..], rank);
      var head := if rank(items[0]).Some? then [(rank(items[0]).value, items[0])] else [];
      ItemsConcat(head, ScoredHits(items[1..], rank));
    }
  }

  /** The ranked list holds exactly the hits, each as often as the list. */
  lemma RankedPermutesHits<T>(items: seq<T>, rank: T -> Option<int>)
    ensures multiset(Ranked(items, rank)) == multiset(Hits(items, rank))
  {
    var p := ScoredHits(items, rank);
    ItemsPermutation(OrderByDescending(p), p);
    ScoredHitsAreHits(items, rank);
  }

  /** Every ranked item has a score, and scores never increase. */
  lemma RankedNonIncreasing<T>(items: seq<T>, rank: T -> Option<int>)
    ensures forall i :: 0 <= i < |Ranked(items, rank)| ==> rank(Ranked(items, rank)[i]).Some?
    ensures forall i, j :: 0 <= i < j < |Ranked(items, rank)| ==>
      rank(Ranked(items, rank)[i]).value >= rank(Ranked(items, rank)[j]).value
  {
    var p := ScoredHits(items, rank);
    var sorted := OrderByDescending(p);
    forall i | 0 <= i < |sorted| ensures rank(sorted[i].1) == Some(sorted[i].0) {
      assert sorted[i] in multiset(p);
    }
  }

  lemma {:induction false} WithRankOfItems<T>(p: seq<(int, T)>, rank: T -> Option<int>, k: int)
    requires forall q :: q in p ==> rank(q.1) == Some(q.0)
    ensures WithRank(Items(p), rank, k) == Items(WithScore(p, k))
  {
    if p != [] {
      WithRankOfItems(p[1..], rank, k);
      assert Items(p)[1..] == Items(p[1..]);
      ItemsConcat(if p[0].0 == k then [p[0]] else [], WithScore(p[1..], k));
    }
  }

  lemma {:induction false} ScoredHitsWithScore<T>(items: seq<T>, rank: T -> Option<int>, k: int)
    ensures Items(WithScore(ScoredHits(items, rank), k)) == WithRank(items, rank, k)
  {
    if items != [] {
      ScoredHitsWithScore(items[1..], rank, k);
      var head := if rank(items[0]).Some? then [(rank(items[0]).value, items[0])] else [];
      WithScoreConcat(head, ScoredHits(items[1..], rank), k);
      ItemsConcat(WithScore(head, k), WithScore(ScoredHits(items[1..], rank), k));
      if head != [] {
        assert head[1..] == [];
      }
    }
  }

  /** Stability: the items sharing a score keep their list order. */
  lemma RankedIsStable<T>(items: seq<T>, rank: T -> Option<int>, k: int)
    ensures WithRank(Ranked(items, rank), rank, k) == WithRank(items, rank, k)
  {
    var p := ScoredHits(items, rank);
    var sorted := OrderByDescending(p);
    forall q | q in sorted ensures rank(q.1) == Some(q.0) {
      assert q in multiset(p);
    }
    WithRankOfItems(sorted, rank, k);
    ScoredHitsWithScore(items, rank, k);
  }
}
