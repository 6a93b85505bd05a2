/** The last step of both recommenders: `sorted(pairs, key=lambda x: x[1],
    reverse=True)[:10]` over (item, score) pairs. Python's sort is stable, and
    with `reverse=True` equal scores keep their original order. */
module Ranking {
  import opened Wrappers

  /** How many pairs a recommendation returns. */
  const Limit: nat := 10

  /** The (item, score) pairs of the first `n` items whose scoring
      succeeded, in item order: the `scores.append((item, score))` loops of
      both recommenders, where `None` is a candidate whose scoring raised or
      that was skipped. */
  function ScoredPairs<T>(xs: seq<T>, scores: seq<Option<real>>, n: nat): (r: seq<(T, real)>)
    requires |scores| == |xs| && n <= |xs|
    ensures |r| <= n
  {
    if n == 0 then []
    else
      var prev := ScoredPairs(xs, scores, n - 1);
      match scores[n - 1]
      case None => prev
      case Some(s) => prev + [(xs[n - 1], s)]
  }

  /** Every item whose scoring succeeded has its pair collected. */
  lemma {:induction false} ScoredPairsComplete<T>(xs: seq<T>, scores: seq<Option<real>>, n: nat, i: nat)
    requires |scores| == |xs| && i < n <= |xs| && scores[i].Some?
    ensures (xs[i], scores[i].value) in ScoredPairs(xs, scores, n)
    decreases n
  {
    if i < n - 1 {
      ScoredPairsComplete(xs, scores, n - 1, i);
    }
  }

  /** The collected pairs are those of the scored items, one each and in
      item order: the `k`-th pair belongs to the `idx[k]`-th item, the indices
      increase, and every scored item among the first `n` has one. */
  lemma {:induction false} ScoredPairsIndices<T>(xs: seq<T>, scores: seq<Option<real>>, n: nat) returns (idx: seq<nat>)
    requires |scores| == |xs| && n <= |xs|
    ensures |idx| == |ScoredPairs(xs, scores, n)|
    ensures forall k :: 0 <= k < |idx| ==>
      idx[k] < n && scores[idx[k]].Some? && ScoredPairs(xs, scores, n)[k] == (xs[idx[k]], scores[idx[k]].value)
    ensures forall k, l :: 0 <= k < l < |idx| ==> idx[k] < idx[l]
    ensures forall i :: 0 <= i < n && scores[i].Some? ==> i in idx
    decreases n
  {
    if n == 0 {
      idx := [];
    } else {
      var prev := ScoredPairsIndices(xs, scores, n - 1);
      var before := ScoredPairs(xs, scores, n - 1);
      if scores[n - 1].Some? {
        var pairs := before + [(xs[n - 1], scores[n - 1].value)];
        assert ScoredPairs(xs, scores, n) == pairs;
        idx := prev + [n - 1];
        forall k | 0 <= k < |idx|
          ensures idx[k] < n && scores[idx[k]].Some? && pairs[k] == (xs[idx[k]], scores[idx[k]].value)
        {
          if k < |prev| {
            assert idx[k] == prev[k] && pairs[k] == before[k];
          }
        }
      } else {
        assert ScoredPairs(xs, scores, n) == before;
        idx := prev;
      }
    }
  }

  /** Every collected pair is the item at some index `i` with the score it
      got there. */
  lemma ScoredPairsSound<T>(xs: seq<T>, scores: seq<Option<real>>, n: nat, p: (T, real)) returns (i: nat)
    requires |scores| == |xs| && n <= |xs| && p in ScoredPairs(xs, scores, n)
    ensures i < n && xs[i] == p.0 && scores[i] == Some(p.1)
  {
    var idx := ScoredPairsIndices(xs, scores, n);
    var k :| 0 <= k < |ScoredPairs(xs, scores, n)| && ScoredPairs(xs, scores, n)[k] == p;
    i := idx[k];
  }

  /** The scores equal to `s`, every other outcome replaced by `None`. */
  function KeepScore(scores: seq<Option<real>>, s: real): (r: seq<Option<real>>)
    ensures |r| == |scores|
    ensures forall i :: 0 <= i < |scores| ==> r[i] == if scores[i] == Some(s) then Some(s) else None
  {
    seq(|scores|, i requires 0 <= i < |scores| => if scores[i] == Some(s) then Some(s) else None)
  }

  /** Scores never increase along the list. */
  predicate SortedDesc<T>(xs: seq<(T, real)>) {
    forall i, j :: 0 <= i < j < |xs| ==> xs[i].1 >= xs[j].1
  }

  /** The pairs of `xs` scored `s`, in their order in `xs`. */
  function WithScore<T>(xs: seq<(T, real)>, s: real): (r: seq<(T, real)>)
    ensures |r| <= |xs|
    ensures forall k :: 0 <= k < |r| ==> r[k].1 == s
  {
    if xs == [] then []
    else (if xs[0].1 == s then [xs[0]] else []) + WithScore(xs[1..], s)
  }

  lemma {:induction false} WithScoreAppend<T>(a: seq<(T, real)>, b: seq<(T, real)>, s: real)
    ensures WithScore(a + b, s) == WithScore(a, s) + WithScore(b, s)
    decreases |a|
  {
    if a == [] {
      assert a + b == b;
    } else {
      assert (a + b)[1..] == a[1..] + b;
      WithScoreAppend(a[1..], b, s);
    }
  }

  /** The collected pairs scored `s` are the pairs collected from the items
      scored `s`, in item order. */
  lemma {:induction false} WithScoreScoredPairs<T>(xs: seq<T>, scores: seq<Option<real>>, n: nat, s: real)
    requires |scores| == |xs| && n <= |xs|
    ensures WithScore(ScoredPairs(xs, scores, n), s) == ScoredPairs(xs, KeepScore(scores, s), n)
    decreases n
  {
    if n > 0 {
      WithScoreScoredPairs(xs, scores, n - 1, s);
      var prev, kept := ScoredPairs(xs, scores, n - 1), KeepScore(scores, s);
      var keptPrev := ScoredPairs(xs, kept, n - 1);
      if scores[n - 1].Some? {
        var p := (xs[n - 1], scores[n - 1].value);
        assert ScoredPairs(xs, scores, n) == prev + [p];
        WithScoreAppend(prev, [p], s);
        assert WithScore([p], s) == if p.1 == s then [p] else [] by {
          assert [p][1..] == [];
        }
        if p.1 == s {
          assert ScoredPairs(xs, kept, n) == keptPrev + [p];
        } else {
          assert ScoredPairs(xs, kept, n) == keptPrev;
        }
      } else {
        assert ScoredPairs(xs, scores, n) == prev;
        assert ScoredPairs(xs, kept, n) == keptPrev;
      }
    }
  }

  /** Places `x` in a sorted list, in front of the first pair whose score does
      not exceed its own, so that `x` precedes the pairs it ties with. */
  function Insert<T(==)>(x: (T, real), ys: seq<(T, real)>): (r: seq<(T, real)>)
    requires SortedDesc(ys)
    ensures |r| == |ys| + 1
    ensures r[0] == x || (|ys| > 0 && r[0] == ys[0])
    ensures SortedDesc(r)
    ensures multiset(r) == multiset(ys) + multiset{x}
  {
    if ys == [] || ys[0].1 <= x.1 then [x] + ys
    else
      var rest := Insert(x, ys[1..]);
      assert ys == [ys[0]] + ys[1..];
      [ys[0]] + rest
  }

  /** A stable sort by descending score (insertion sort from the back). */
  function SortDesc<T(==)>(xs: seq<(T, real)>): (r: seq<(T, real)>)
    ensures |r| == |xs|
    ensures SortedDesc(r)
    ensures multiset(r) == multiset(xs)
  {
    if xs == [] then []
    else
      assert xs == [xs[0]] + xs[1..];
      Insert(xs[0], SortDesc(xs[1..]))
  }

  /** Inserting `x` adds it in front of the pairs it ties with. */
  lemma {:induction false} InsertWithScore<T>(x: (T, real), ys: seq<(T, real)>, s: real)
    requires SortedDesc(ys)
    ensures WithScore(Insert(x, ys), s) == (if x.1 == s then [x] else []) + WithScore(ys, s)
    decreases |ys|
  {
    if ys == [] || ys[0].1 <= x.1 {
      assert ([x] + ys)[1..] == ys;
    } else {
      var rest := Insert(x, ys[1..]);
      InsertWithScore(x, ys[1..], s);
      assert Insert(x, ys) == [ys[0]] + rest;
      WithScoreBehindHead(rest, ys, if x.1 == s then [x] else [], s);
    }
  }

  /** Putting the head of `ys` back in front of a list whose pairs scored
      `s` are `ins` followed by those of the tail of `ys`, where `ins` is
      empty when the head is scored `s`, gives `ins` followed by those of
      `ys`. */
  lemma WithScoreBehindHead<T>(rest: seq<(T, real)>, ys: seq<(T, real)>, ins: seq<(T, real)>, s: real)
    requires ys != [] && WithScore(rest, s) == ins + WithScore(ys[1..], s)
    requires ins != [] ==> ys[0].1 != s
    ensures WithScore([ys[0]] + rest, s) == ins + WithScore(ys, s)
  {
    assert ([ys[0]] + rest)[1..] == rest;
    var head, tail := if ys[0].1 == s then [ys[0]] else [], WithScore(ys[1..], s);
    assert WithScore(ys, s) == head + tail;
    assert head + (ins + tail) == ins + (head + tail) by {
      if ins != [] {
        assert head == [];
      }
    }
  }

  /** The sort is stable: the pairs sharing any one score keep their order. */
  lemma {:induction false} SortStable<T>(xs: seq<(T, real)>, s: real)
    ensures WithScore(SortDesc(xs), s) == WithScore(xs, s)
    decreases |xs|
  {
    if xs != [] {
      SortStable(xs[1..], s);
      InsertWithScore(xs[0], SortDesc(xs[1..]), s);
    }
  }

  /** `ranked[:10]` of the sorted pairs. */
  function TopTen<T(==)>(xs: seq<(T, real)>): (r: seq<(T, real)>)
    ensures |r| == if |xs| < Limit then |xs| else Limit
    ensures SortedDesc(r)
    ensures multiset(r) <= multiset(xs)
    ensures forall p :: p in r ==> p in xs
  {
    var sorted := SortDesc(xs);
    var n := if |sorted| < Limit then |sorted| else Limit;
    SortedPrefix(sorted, xs, n);
    sorted[..n]
  }

  /** A prefix of a sorted arrangement of `xs` is sorted and draws its pairs
      from `xs`. */
  lemma SortedPrefix<T>(sorted: seq<(T, real)>, xs: seq<(T, real)>, n: nat)
    requires n <= |sorted| && SortedDesc(sorted) && multiset(sorted) == multiset(xs)
    ensures SortedDesc(sorted[..n])
    ensures multiset(sorted[..n]) <= multiset(xs)
    ensures forall p :: p in sorted[..n] ==> p in xs
  {
    assert sorted == sorted[..n] + sorted[n..];
    assert multiset(sorted[..n]) <= multiset(sorted);
    forall p | p in sorted[..n]
      ensures p in xs
    {
      assert p in multiset(sorted[..n]);
      assert p in multiset(xs);
    }
  }

  /** The sorted list and its first ten agree where both are defined. */
  lemma TopTenIsPrefix<T>(xs: seq<(T, real)>)
    ensures TopTen(xs) <= SortDesc(xs)
  {
  }

  /** A pair that was scored but not returned loses to every returned pair,
      and then ten pairs were returned. */
  lemma TopTenComplete<T>(xs: seq<(T, real)>, x: (T, real))
    requires x in xs
    ensures x in TopTen(xs) || (|TopTen(xs)| == Limit && forall y :: y in TopTen(xs) ==> x.1 <= y.1)
  {
    var sorted := SortDesc(xs);
    assert x in multiset(sorted);
    var j :| 0 <= j < |sorted| && sorted[j] == x;
    var top := TopTen(xs);
    TopTenIsPrefix(xs);
    if j >= |top| {
      assert |top| == Limit;
      forall y | y in top ensures x.1 <= y.1 {
        var i :| 0 <= i < |top| && top[i] == y;
        assert sorted[i] == y;
      }
    } else {
      assert top[j] == x;
    }
  }

  /** Taking a prefix keeps the first pairs of each score. */
  lemma {:induction false} WithScorePrefix<T>(xs: seq<(T, real)>, n: nat, s: real)
    requires n <= |xs|
    ensures WithScore(xs[..n], s) <= WithScore(xs, s)
    decreases n
  {
    if n > 0 {
      WithScorePrefix(xs[1..], n - 1, s);
      assert xs[..n][1..] == xs[1..][..n - 1];
    }
  }

  /** Ties keep candidate order in the returned pairs: those scored `s` are
      the first ones scored `s` among the candidates, in candidate order. */
  lemma TopTenStable<T>(xs: seq<(T, real)>, s: real)
    ensures WithScore(TopTen(xs), s) <= WithScore(xs, s)
  {
    var sorted := SortDesc(xs);
    SortStable(xs, s);
    TopTenIsPrefix(xs);
    WithScorePrefix(sorted, |TopTen(xs)|, s);
  }

  /** Every returned pair is the item at some index with the score it got
      there. */
  lemma TopTenScored<T>(xs: seq<T>, scores: seq<Option<real>>, p: (T, real)) returns (i: nat)
    requires |scores| == |xs| && p in TopTen(ScoredPairs(xs, scores, |xs|))
    ensures i < |xs| && xs[i] == p.0 && scores[i] == Some(p.1)
  {
    i := ScoredPairsSound(xs, scores, |xs|, p);
  }
}
