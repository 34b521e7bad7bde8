/** Ranking of scored articles: Python's `sorted(articles, key=score,
    reverse=True)`, a stable sort into non-increasing score order. It is
    modelled as insertion sort, and the three properties that determine a
    stable sort (same elements, ordered keys, equal keys in input order) are
    proved about it; the last lemma shows that these properties leave only
    one possible output.
 */
module Ranking {
  import opened Articles

  predicate SortedDesc(xs: seq<Article>) {
    forall i, j :: 0 <= i < j < |xs| ==> Score(xs[i]) >= Score(xs[j])
  }

  /** The elements of `xs` whose score is `v`, in order. */
  function WithScore(xs: seq<Article>, v: real): (r: seq<Article>)
    ensures forall k :: 0 <= k < |r| ==> Score(r[k]) == v
  {
    if |xs| == 0 then []
    else (if Score(xs[0]) == v then [xs[0]] else []) + WithScore(xs[1..], v)
  }

  /** Places `x` before the first element whose score is not above its own. */
  function Insert(x: Article, ys: seq<Article>): (r: seq<Article>)
    ensures multiset(r) == multiset(ys) + multiset{x}
  {
    if |ys| == 0 || Score(x) >= Score(ys[0]) then [x] + ys
    else
      assert ys == [ys[0]] + ys[1..];
      [ys[0]] + Insert(x, ys[1..])
  }

  lemma {:induction false} InsertSorted(x: Article, ys: seq<Article>)
    requires SortedDesc(ys)
    ensures SortedDesc(Insert(x, ys))
    decreases |ys|
  {
    if |ys| > 0 && Score(x) < Score(ys[0]) {
      var tail := Insert(x, ys[1..]);
      InsertSorted(x, ys[1..]);
      InsertBounded(x, ys[1..], Score(ys[0]));
      var r := [ys[0]] + tail;
      forall i, j | 0 <= i < j < |r|
        ensures Score(r[i]) >= Score(r[j])
      {
        if i > 0 {
          assert r[i] == tail[i - 1] && r[j] == tail[j - 1];
        } else {
          assert r[j] == tail[j - 1];
        }
      }
    }
  }

  /** Inserting below a bound keeps every score below it. */
  lemma {:induction false} InsertBounded(x: Article, ys: seq<Article>, b: real)
    requires Score(x) <= b && forall k :: 0 <= k < |ys| ==> Score(ys[k]) <= b
    ensures forall k :: 0 <= k < |Insert(x, ys)| ==> Score(Insert(x, ys)[k]) <= b
    decreases |ys|
  {
    if |ys| > 0 && Score(x) < Score(ys[0]) {
      InsertBounded(x, ys[1..], b);
    }
  }

  /** Inserting `x` adds it in front of the elements with the same score. */
  lemma {:induction false} InsertWithScore(x: Article, ys: seq<Article>, v: real)
    ensures WithScore(Insert(x, ys), v) == (if Score(x) == v then [x] else []) + WithScore(ys, v)
    decreases |ys|
  {
    if |ys| == 0 || Score(x) >= Score(ys[0]) {
      assert ([x] + ys)[1..] == ys;
    } else {
      var tail := Insert(x, ys[1..]);
      InsertWithScore(x, ys[1..], v);
      assert ([ys[0]] + tail)[1..] == tail;
      assert ys[1..] == ys[1..];
    }
  }

  /** The ranking: a stable sort by descending score. */
  function SortByScore(xs: seq<Article>): (r: seq<Article>)
    ensures multiset(r) == multiset(xs)
    ensures SortedDesc(r)
    ensures |r| == |xs|
  {
    if |xs| == 0 then []
    else
      assert xs == [xs[0]] + xs[1..];
      InsertSorted(xs[0], SortByScore(xs[1..]));
      Insert(xs[0], SortByScore(xs[1..]))
  }

  /** Stability: articles with equal scores keep their input order. */
  lemma {:induction false} SortIsStable(xs: seq<Article>, v: real)
    ensures WithScore(SortByScore(xs), v) == WithScore(xs, v)
    decreases |xs|
  {
    if |xs| > 0 {
      SortIsStable(xs[1..], v);
      InsertWithScore(xs[0], SortByScore(xs[1..]), v);
    }
  }

  lemma {:induction false} WithScoreOfMax(xs: seq<Article>)
    requires |xs| > 0 && SortedDesc(xs)
    ensures WithScore(xs, Score(xs[0])) == [xs[0]] + WithScore(xs[1..], Score(xs[0]))
  {
  }

  lemma HeadKept(xs: seq<Article>)
    requires |xs| > 0
    ensures WithScore(xs, Score(xs[0])) != []
  {
    assert WithScore(xs, Score(xs[0]))[0] == xs[0];
  }

  lemma {:induction false} WithScoreBelowMax(xs: seq<Article>, v: real)
    requires |xs| > 0 && SortedDesc(xs) && v != Score(xs[0])
    ensures WithScore(xs, v) == WithScore(xs[1..], v)
  {
  }

  /** A sequence's first element has the greatest score among its elements
      when it is sorted. */
  lemma SortedHeadIsMax(xs: seq<Article>, z: Article)
    requires SortedDesc(xs) && |xs| > 0 && z in xs
    ensures Score(z) <= Score(xs[0])
  {
    var k :| 0 <= k < |xs| && xs[k] == z;
    if k > 0 {
      assert Score(xs[0]) >= Score(xs[k]);
    }
  }

  /** Uniqueness: two sequences that are sorted by descending score and
      agree, score by score, on the order of equal-score elements are equal.
      So SortByScore is the only output a stable descending sort can give. */
  lemma {:induction false} StableSortUnique(a: seq<Article>, b: seq<Article>)
    requires SortedDesc(a) && SortedDesc(b)
    requires forall v :: WithScore(a, v) == WithScore(b, v)
    ensures a == b
    decreases |a|
  {
    if |a| == 0 {
      if |b| > 0 {
        assert false;
      }
    } else if |b| == 0 {
      HeadKept(a);
      assert false;
    } else {
      var ma := Score(a[0]);
      var mb := Score(b[0]);
      WithScoreOfMax(a);
      WithScoreOfMax(b);
      // Each head has the largest score of the other sequence too.
      assert a[0] in WithScore(b, ma);
      WithScoreIn(b, ma, a[0]);
      SortedHeadIsMax(b, a[0]);
      assert b[0] in WithScore(a, mb);
      WithScoreIn(a, mb, b[0]);
      SortedHeadIsMax(a, b[0]);
      assert ma == mb;
      assert a[0] == WithScore(a, ma)[0] == WithScore(b, ma)[0] == b[0];
      forall v
        ensures WithScore(a[1..], v) == WithScore(b[1..], v)
      {
        if v == ma {
          assert WithScore(a, v) == WithScore(b, v);
          assert ([a[0]] + WithScore(a[1..], v))[1..] == WithScore(a[1..], v);
          assert ([b[0]] + WithScore(b[1..], v))[1..] == WithScore(b[1..], v);
        } else {
          assert WithScore(a, v) == WithScore(b, v);
          WithScoreBelowMax(a, v);
          WithScoreBelowMax(b, v);
        }
      }
      StableSortUnique(a[1..], b[1..]);
      assert a == [a[0]] + a[1..];
      assert b == [b[0]] + b[1..];
    }
  }

  lemma {:induction false} WithScoreIn(xs: seq<Article>, v: real, z: Article)
    requires z in WithScore(xs, v)
    ensures z in xs
    decreases |xs|
  {
    if |xs| > 0 && !(Score(xs[0]) == v && z == xs[0]) {
      WithScoreIn(xs[1..], v, z);
    }
  }

  /** Any sequence that is sorted by descending score and keeps the input
      order among equal scores is the ranking SortByScore computes. */
  lemma RankingIsTheStableSort(xs: seq<Article>, r: seq<Article>)
    requires SortedDesc(r)
    requires forall v :: WithScore(r, v) == WithScore(xs, v)
    ensures r == SortByScore(xs)
  {
    forall v
      ensures WithScore(r, v) == WithScore(SortByScore(xs), v)
    {
      SortIsStable(xs, v);
    }
    StableSortUnique(r, SortByScore(xs));
  }
}
