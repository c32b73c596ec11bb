/** The LINQ operators the catalog resolver relies on: `Take`,
    `FirstOrDefault`, `Select` of the item out of a (score, item) pair, and the
    stable `OrderByDescending` on the score. */
module Linq {
  import opened Wrappers

  /** `s.Take(n)`: the first `n` elements, all of them when `n >= |s|`, none
      when `n <= 0`. */
  function Take<T>(s: seq<T>, n: int): (r: seq<T>)
    ensures |r| == if n <= 0 then 0 else if n < |s| then n else |s|
    ensures r == s[..|r|]
  {
    if n <= 0 then [] else if n < |s| then s[..n] else s
  }

  /** `s.FirstOrDefault(p)`: the first element satisfying `p`. */
  function FirstOrDefault<T>(s: seq<T>, p: T -> bool): (r: Option<T>)
    ensures r.None? <==> forall i :: 0 <= i < |s| ==> !p(s[i])
    ensures r.Some? ==> exists i :: 0 <= i < |s| && s[i] == r.value && p(s[i]) && forall j :: 0 <= j < i ==> !p(s[j])
  {
    if s == [] then None
    else if p(s[0]) then
      Some(s[0])
    else
      var r := FirstOrDefault(s[1..], p);
      FirstOrDefaultShift(s, p, r);
      r
  }

  /** A first match in the tail of `s`, when the head does not match, is a
      first match in `s`. */
  lemma FirstOrDefaultShift<T>(s: seq<T>, p: T -> bool, r: Option<T>)
    requires |s| > 0 && !p(s[0])
    requires r.None? <==> forall i :: 0 <= i < |s[1..]| ==> !p(s[1..][i])
    requires r.Some? ==> exists i :: 0 <= i < |s[1..]| && s[1..][i] == r.value && p(s[1..][i]) && forall j :: 0 <= j < i ==> !p(s[1..][j])
    ensures r.None? <==> forall i :: 0 <= i < |s| ==> !p(s[i])
    ensures r.Some? ==> exists i :: 0 <= i < |s| && s[i] == r.value && p(s[i]) && forall j :: 0 <= j < i ==> !p(s[j])
  {
  }

  /** `pairs.Select(t => t.Item2)` */
  function Items<T>(pairs: seq<(int, T)>): (r: seq<T>)
    ensures |r| == |pairs|
    ensures forall i :: 0 <= i < |pairs| ==> r[i] == pairs[i].1
  {
    if pairs == [] then [] else [pairs[0].1] + Items(pairs[1..])
  }

  lemma ItemsConcat<T>(a: seq<(int, T)>, b: seq<(int, T)>)
    ensures Items(a + b) == Items(a) + Items(b)
  {
  }

  /** Rearranging the pairs rearranges their items the same way. */
  lemma {:induction false} ItemsPermutation<T>(a: seq<(int, T)>, b: seq<(int, T)>)
    requires multiset(a) == multiset(b)
    ensures multiset(Items(a)) == multiset(Items(b))
    decreases |a|
  {
    if a == [] {
      assert |b| == |multiset(b)| == 0;
    } else {
      var x := a[0];
      assert x in multiset(b);
      var i :| 0 <= i < |b| && b[i] == x;
      var b' := b[..i] + b[i + 1..];
      assert b == b[..i] + [x] + b[i + 1..];
      assert a == [x] + a[1..];
      assert multiset(b) == multiset(b[..i]) + multiset{x} + multiset(b[i + 1..]);
      assert multiset(b') == multiset(b[..i]) + multiset(b[i + 1..]);
      assert multiset(a) == multiset{x} + multiset(a[1..]);
      assert multiset(a[1..]) == multiset(a) - multiset{x};
      assert multiset(b') == multiset(b) - multiset{x};
      ItemsPermutation(a[1..], b');
      ItemsConcat([x], a[1..]);
      ItemsConcat(b[..i] + [x], b[i + 1..]);
      ItemsConcat(b[..i], [x]);
      ItemsConcat(b[..i], b[i + 1..]);
    }
  }

  /** Scores never increase from left to right. */
  predicate NonIncreasing<T>(s: seq<(int, T)>) {
    forall i, j :: 0 <= i < j < |s| ==> s[i].0 >= s[j].0
  }

  /** The pairs of `s` whose score is `k`, in their order in `s`. */
  function WithScore<T>(s: seq<(int, T)>, k: int): seq<(int, T)> {
    if s == [] then [] else (if s[0].0 == k then [s[0]] else []) + WithScore(s[1..], k)
  }

  lemma {:induction false} WithScoreConcat<T>(a: seq<(int, T)>, b: seq<(int, T)>, k: int)
    ensures WithScore(a + b, k) == WithScore(a, k) + WithScore(b, k)
  {
    if a == [] {
      assert a + b == b;
    } else {
      var head := if a[0].0 == k then [a[0]] else [];
      assert (a + b)[0] == a[0];
      assert (a + b)[1..] == a[1..] + b;
      assert WithScore(a + b, k) == head + WithScore(a[1..] + b, k);
      WithScoreConcat(a[1..], b, k);
      assert WithScore(a, k) == head + WithScore(a[1..], k);
      assert head + (WithScore(a[1..], k) + WithScore(b, k)) == (head + WithScore(a[1..], k)) + WithScore(b, k);
    }
  }

  /** Places `x` in front of the first pair whose score is not greater than its
      own: `x` goes after every pair that outranks it and before every pair it
      ties with, since those came after it in the input. */
  function Insert<T>(x: (int, T), s: seq<(int, T)>): seq<(int, T)> {
    if s == [] || s[0].0 <= x.0 then [x] + s else [s[0]] + Insert(x, s[1..])
  }

  lemma {:induction false} InsertPermutes<T>(x: (int, T), s: seq<(int, T)>)
    ensures multiset(Insert(x, s)) == multiset(s) + multiset{x}
  {
    if s != [] && s[0].0 > x.0 {
      InsertPermutes(x, s[1..]);
      assert s == [s[0]] + s[1..];
    }
  }

  lemma {:induction false} InsertSorted<T>(x: (int, T), s: seq<(int, T)>)
    requires NonIncreasing(s)
    ensures NonIncreasing(Insert(x, s))
  {
    if s != [] && s[0].0 > x.0 {
      var rest := Insert(x, s[1..]);
      InsertSorted(x, s[1..]);
      InsertPermutes(x, s[1..]);
      forall q | q in rest ensures q.0 <= s[0].0 {
        assert q in multiset(rest);
        assert q == x || q in s[1..];
      }
      PrependSorted(s[0], rest);
    }
  }

  lemma PrependSorted<T>(y: (int, T), s: seq<(int, T)>)
    requires NonIncreasing(s) && forall q :: q in s ==> q.0 <= y.0
    ensures NonIncreasing([y] + s)
  {
    var r := [y] + s;
    forall i, j | 0 <= i < j < |r| ensures r[i].0 >= r[j].0 {
      assert r[j] == s[j - 1];
      if i > 0 { assert r[i] == s[i - 1]; }
    }
  }

  /** The score-`k` filter of a sequence with a known first pair. */
  lemma WithScoreCons<T>(y: (int, T), t: seq<(int, T)>, k: int)
    ensures WithScore([y] + t, k) == (if y.0 == k then [y] else []) + WithScore(t, k)
  {
    assert ([y] + t)[0] == y;
    assert ([y] + t)[1..] == t;
  }

  lemma {:induction false} InsertWithScore<T>(x: (int, T), s: seq<(int, T)>, k: int)
    ensures WithScore(Insert(x, s), k) == (if x.0 == k then [x] else []) + WithScore(s, k)
  {
    if s == [] || s[0].0 <= x.0 {
      assert Insert(x, s) == [x] + s;
      WithScoreCons(x, s, k);
    } else {
      var hx := if x.0 == k then [x] else [];
      var hs := if s[0].0 == k then [s[0]] else [];
      var rest := Insert(x, s[1..]);
      var w := WithScore(s[1..], k);
      assert Insert(x, s) == [s[0]] + rest;
      WithScoreCons(s[0], rest, k);
      InsertWithScore(x, s[1..], k);
      assert s == [s[0]] + s[1..];
      WithScoreCons(s[0], s[1..], k);
      // s[0] outranks x, so at most one of them has score k.
      assert hs == [] || hx == [];
      assert hs + (hx + w) == hx + (hs + w);
    }
  }

  /** `s.OrderByDescending(t => t.Item1)`, which .NET documents as a stable
      sort: an insertion sort that inserts each pair ahead of the equal-score
      pairs that followed it. */
  function OrderByDescending<T>(s: seq<(int, T)>): (r: seq<(int, T)>)
    ensures NonIncreasing(r)
    ensures multiset(r) == multiset(s)
    ensures forall k :: WithScore(r, k) == WithScore(s, k)
  {
    if s == [] then []
    else
      var sorted := OrderByDescending(s[1..]);
      InsertPermutes(s[0], sorted);
      InsertSorted(s[0], sorted);
      forall k ensures WithScore(Insert(s[0], sorted), k) == WithScore(s, k) {
        InsertWithScore(s[0], sorted, k);
      }
      assert s == [s[0]] + s[1..];
      Insert(s[0], sorted)
  }
}
