/** The sort-and-slice of `get_top_nodes_by_metric`: Python's stable
    `sorted(items, key=score, reverse=True)` followed by the slice `[:top_n]`. */
module Ranking {
  import opened GraphModel

  /** A `(node_id, score)` pair of `scores.items()`. */
  type Scored = (NodeId, real)

  /** Scores never increase along `s`. */
  predicate NonIncreasing(s: seq<Scored>)
  {
    forall i, j :: 0 <= i < j < |s| ==> s[i].1 >= s[j].1
  }

  /** The items of `s` whose score is `v`, in their order in `s`. */
  function WithScore(s: seq<Scored>, v: real): seq<Scored>
  {
    if s == [] then [] else WithScore(s[..|s| - 1], v) + (if s[|s| - 1].1 == v then [s[|s| - 1]] else [])
  }

  /** Places `x` after every item of `s` whose score is at least its own. */
  function Insert(s: seq<Scored>, x: Scored): (r: seq<Scored>)
    ensures |r| == |s| + 1
  {
    if s == [] || s[|s| - 1].1 >= x.1 then s + [x]
    else Insert(s[..|s| - 1], x) + [s[|s| - 1]]
  }

  /** Inserting adds exactly the one item. */
  lemma {:induction false} InsertPermutes(s: seq<Scored>, x: Scored)
    ensures multiset(Insert(s, x)) == multiset(s) + multiset{x}
  {
    if s != [] && s[|s| - 1].1 < x.1 {
      var init, last := s[..|s| - 1], s[|s| - 1];
      assert s == init + [last];
      assert Insert(s, x) == Insert(init, x) + [last];
      InsertPermutes(init, x);
    }
  }

  /** Inserting keeps every score of `s` and adds that of `x`. */
  lemma {:induction false} InsertMembers(s: seq<Scored>, x: Scored)
    ensures forall y :: y in Insert(s, x) <==> y in s || y == x
  {
    if s != [] && s[|s| - 1].1 < x.1 {
      var init, last := s[..|s| - 1], s[|s| - 1];
      InsertMembers(init, x);
      assert s == init + [last];
    }
  }

  /** Inserting into a non-increasing sequence keeps it non-increasing. */
  lemma {:induction false} InsertSorted(s: seq<Scored>, x: Scored)
    requires NonIncreasing(s)
    ensures NonIncreasing(Insert(s, x))
  {
    if s != [] && s[|s| - 1].1 < x.1 {
      var init, last := s[..|s| - 1], s[|s| - 1];
      assert NonIncreasing(init);
      InsertSorted(init, x);
      InsertMembers(init, x);
      var r := Insert(init, x);
      forall i | 0 <= i < |r| ensures r[i].1 >= last.1 {
        assert r[i] in r;
        if r[i] != x {
          var k :| 0 <= k < |init| && init[k] == r[i];
          assert s[k] == r[i];
        }
      }
    }
  }

  /** `sorted(items, key=score, reverse=True)`: insertion of each item, in order,
      after all earlier items with a score at least its own. */
  function SortDescending(items: seq<Scored>): (r: seq<Scored>)
    ensures |r| == |items|
  {
    if items == [] then []
    else Insert(SortDescending(items[..|items| - 1]), items[|items| - 1])
  }

  /** The sorted list is a permutation of the items. */
  lemma {:induction false} SortPermutes(items: seq<Scored>)
    ensures multiset(SortDescending(items)) == multiset(items)
  {
    if items != [] {
      var init, last := items[..|items| - 1], items[|items| - 1];
      assert items == init + [last];
      SortPermutes(init);
      InsertPermutes(SortDescending(init), last);
    }
  }

  /** The sorted list has non-increasing scores. */
  lemma {:induction false} SortSorted(items: seq<Scored>)
    ensures NonIncreasing(SortDescending(items))
  {
    if items != [] {
      var init := items[..|items| - 1];
      SortSorted(init);
      InsertSorted(SortDescending(init), items[|items| - 1]);
    }
  }

  lemma WithScoreSnoc(s: seq<Scored>, x: Scored, v: real)
    ensures WithScore(s + [x], v) == WithScore(s, v) + (if x.1 == v then [x] else [])
  {
    assert (s + [x])[..|s|] == s;
  }

  lemma {:induction false} InsertStable(s: seq<Scored>, x: Scored, v: real)
    ensures WithScore(Insert(s, x), v) == WithScore(s, v) + (if x.1 == v then [x] else [])
  {
    if s == [] || s[|s| - 1].1 >= x.1 {
      WithScoreSnoc(s, x, v);
    } else {
      var init, last := s[..|s| - 1], s[|s| - 1];
      var r := Insert(init, x);
      assert Insert(s, x) == r + [last];
      assert s == init + [last];
      InsertStable(init, x, v);
      WithScoreSnoc(r, last, v);
      WithScoreSnoc(init, last, v);
      var before := WithScore(init, v);
      if x.1 == v {
        assert last.1 != v;
        assert WithScore(r + [last], v) == before + [x];
        assert WithScore(s, v) == before;
      } else {
        assert WithScore(r, v) == before;
        assert WithScore(r + [last], v) == WithScore(s, v);
      }
    }
  }

  /** The sort is stable: items with equal scores keep their original order. */
  lemma {:induction false} SortStable(items: seq<Scored>, v: real)
    ensures WithScore(SortDescending(items), v) == WithScore(items, v)
  {
    if items != [] {
      var init, last := items[..|items| - 1], items[|items| - 1];
      var sortedInit := SortDescending(init);
      assert SortDescending(items) == Insert(sortedInit, last);
      SortStable(init, v);
      InsertStable(sortedInit, last, v);
      assert items == init + [last];
      WithScoreSnoc(init, last, v);
    }
  }

  /** The length of Python's `s[:n]`: a negative `n` counts from the end. */
  function SliceLength(len: nat, n: int): (k: nat)
    ensures k <= len
  {
    if n >= 0 then (if n < len then n else len)
    else if len + n > 0 then len + n else 0
  }

  /** Python's `s[:n]`. */
  function Slice(s: seq<Scored>, n: int): (r: seq<Scored>)
    ensures |r| == SliceLength(|s|, n) && r <= s
  {
    s[..SliceLength(|s|, n)]
  }

  /** A non-negative `n` keeps the first `n` entries (all of them when there are
      fewer); a negative `n` drops the last `-n` entries (all of them when there are
      not that many). */
  lemma SliceCases(s: seq<Scored>, n: int)
    ensures 0 <= n ==> Slice(s, n) == s[..if n < |s| then n else |s|]
    ensures n < 0 ==> Slice(s, n) == s[..if |s| + n > 0 then |s| + n else 0]
    ensures n < 0 && -n <= |s| ==> Slice(s, n) + s[|s| + n..] == s
  {
    if n < 0 && -n <= |s| {
      assert s[..|s| + n] + s[|s| + n..] == s;
    }
  }

  /** `sorted(items, key=score, reverse=True)[:top_n]`. */
  function TopN(items: seq<Scored>, topN: int): seq<Scored>
  {
    Slice(SortDescending(items), topN)
  }

  /** Whatever a slice of `s` leaves out comes after the slice in `s`. */
  lemma LeftOutFollows(s: seq<Scored>, k: nat, y: Scored)
    requires k <= |s| && y in multiset(s) - multiset(s[..k])
    ensures exists j :: k <= j < |s| && s[j] == y
  {
    assert s == s[..k] + s[k..];
    assert multiset(s) == multiset(s[..k]) + multiset(s[k..]);
    assert y in multiset(s[k..]);
    var j :| 0 <= j < |s| - k && s[k..][j] == y;
    assert s[k + j] == y;
  }

  /** The top-N list has min(top_n, |items|) entries for a non-negative `top_n`, is
      drawn from the items and keeps scores non-increasing. */
  lemma TopNShape(items: seq<Scored>, topN: int)
    ensures var r := TopN(items, topN);
      && |r| == SliceLength(|items|, topN)
      && (0 <= topN ==> |r| == if topN < |items| then topN else |items|)
      && multiset(r) <= multiset(items)
      && NonIncreasing(r)
  {
    var sorted := SortDescending(items);
    var k := SliceLength(|items|, topN);
    var r := sorted[..k];
    SortPermutes(items);
    SortSorted(items);
    assert sorted == r + sorted[k..];
    assert multiset(sorted) == multiset(r) + multiset(sorted[k..]);
  }

  /** No item left out of the top-N list scores higher than one kept. */
  lemma TopNMaximal(items: seq<Scored>, topN: int, x: Scored, y: Scored)
    requires x in TopN(items, topN) && y in multiset(items) - multiset(TopN(items, topN))
    ensures y.1 <= x.1
  {
    var sorted := SortDescending(items);
    var k := SliceLength(|items|, topN);
    var r := sorted[..k];
    var i :| 0 <= i < |r| && r[i] == x;
    SortPermutes(items);
    SortSorted(items);
    LeftOutFollows(sorted, k, y);
    var j :| k <= j < |sorted| && sorted[j] == y;
    assert sorted[i] == x;
  }

  /** Among the entries kept, equal scores appear in the order of the items. */
  lemma TopNTiesInOrder(items: seq<Scored>, topN: int, v: real)
    ensures WithScore(TopN(items, topN), v) <= WithScore(items, v)
  {
    var sorted := SortDescending(items);
    var k := SliceLength(|items|, topN);
    var r := sorted[..k];
    assert TopN(items, topN) == r;
    SortStable(items, v);
    WithScorePrefix(r, sorted[k..], v);
    assert sorted == r + sorted[k..];
  }

  lemma {:induction false} WithScorePrefix(a: seq<Scored>, b: seq<Scored>, v: real)
    ensures WithScore(a, v) <= WithScore(a + b, v)
    decreases |b|
  {
    if b != [] {
      var init, last := b[..|b| - 1], b[|b| - 1];
      WithScorePrefix(a, init, v);
      assert a + b == (a + init) + [last];
      WithScoreSnoc(a + init, last, v);
    } else {
      assert a + b == a;
    }
  }
}
