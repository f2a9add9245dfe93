/** Ordering by a numeric weight, largest first, keeping the input order among equal
  * weights. This is what `Array.prototype.sort` with the comparator
  * `(a, b) => w(b) - w(a)` does (the sort is stable), and what the data store's
  * `ORDER BY` returns in this model. */
module Ranking {
  import opened Seqs

  ghost predicate NonIncreasing<T>(s: seq<T>, w: T -> int) {
    forall i, j :: 0 <= i < j < |s| ==> w(s[i]) >= w(s[j])
  }

  /** Place `x` before the first element of `t` that weighs less than it. */
  function Insert<T>(x: T, t: seq<T>, w: T -> int): seq<T> {
    if t == [] || w(x) >= w(t[0]) then [x] + t
    else [t[0]] + Insert(x, t[1..], w)
  }

  /** Stable insertion sort, heaviest first. */
  function SortDesc<T>(s: seq<T>, w: T -> int): seq<T> {
    if s == [] then [] else Insert(s[0], SortDesc(s[1..], w), w)
  }

  /** `s.slice(0, k)`. */
  function Take<T>(s: seq<T>, k: nat): (r: seq<T>)
    ensures |r| <= k && |r| <= |s| && r == s[..|r|]
    ensures |s| >= k ==> |r| == k
  {
    if |s| <= k then s else s[..k]
  }

  /** The elements that weigh exactly `c`. */
  function HasWeight<T>(w: T -> int, c: int): T -> bool {
    x => w(x) == c
  }

  lemma {:induction false} InsertPermutes<T>(x: T, t: seq<T>, w: T -> int)
    ensures multiset(Insert(x, t, w)) == multiset(t) + multiset{x}
    ensures |Insert(x, t, w)| == |t| + 1
  {
    if t != [] && w(x) < w(t[0]) {
      InsertPermutes(x, t[1..], w);
      assert t == [t[0]] + t[1..];
    }
  }

  lemma {:induction false} InsertSorted<T>(x: T, t: seq<T>, w: T -> int)
    requires NonIncreasing(t, w)
    ensures NonIncreasing(Insert(x, t, w), w)
  {
    if t == [] || w(x) >= w(t[0]) {
      ConsSorted(x, t, w);
    } else {
      var rest := t[1..];
      assert NonIncreasing(rest, w);
      InsertSorted(x, rest, w);
      var r := Insert(x, rest, w);
      assert r[0] == x || r[0] == rest[0];
      ConsSorted(t[0], r, w);
    }
  }

  /** Putting an element no lighter than the head in front keeps the order. */
  lemma ConsSorted<T>(x: T, t: seq<T>, w: T -> int)
    requires NonIncreasing(t, w) && (t == [] || w(x) >= w(t[0]))
    ensures NonIncreasing([x] + t, w)
  {
    var res := [x] + t;
    forall i, j | 0 <= i < j < |res| ensures w(res[i]) >= w(res[j]) {
      assert res[j] == t[j - 1];
      if i == 0 {
        assert w(t[0]) >= w(t[j - 1]);
      } else {
        assert res[i] == t[i - 1];
      }
    }
  }

  /** The sort orders by weight, heaviest first, and is a permutation of its input. */
  lemma {:induction false} SortDescSorted<T>(s: seq<T>, w: T -> int)
    ensures NonIncreasing(SortDesc(s, w), w)
    ensures multiset(SortDesc(s, w)) == multiset(s)
    ensures |SortDesc(s, w)| == |s|
  {
    if s != [] {
      SortDescSorted(s[1..], w);
      InsertSorted(s[0], SortDesc(s[1..], w), w);
      InsertPermutes(s[0], SortDesc(s[1..], w), w);
      assert s == [s[0]] + s[1..];
    }
  }

  lemma {:induction false} FilterNonIncreasing<T>(t: seq<T>, p: T -> bool, w: T -> int)
    requires NonIncreasing(t, w)
    ensures NonIncreasing(Filter(t, p), w)
  {
    if t != [] {
      FilterNonIncreasing(t[1..], p, w);
      FilterMembers(t[1..], p);
      var f := Filter(t[1..], p);
      forall k | 0 <= k < |f| ensures w(t[0]) >= w(f[k]) {
        assert f[k] in t[1..];
      }
    }
  }

  lemma FilterCons<T>(x: T, t: seq<T>, p: T -> bool)
    ensures Filter([x] + t, p) == if p(x) then [x] + Filter(t, p) else Filter(t, p)
  {
    assert ([x] + t)[0] == x && ([x] + t)[1..] == t;
  }

  lemma FilterInsertFront<T>(x: T, t: seq<T>, p: T -> bool, w: T -> int)
    requires NonIncreasing(t, w)
    requires t == [] || w(x) >= w(t[0])
    ensures Filter(Insert(x, t, w), p) == if p(x) then Insert(x, Filter(t, p), w) else Filter(t, p)
  {
    FilterCons(x, t, p);
    var f := Filter(t, p);
    if p(x) && f != [] {
      var m := FilterHeadFrom(t, p);
      assert w(t[0]) >= w(t[m]);
      assert Insert(x, f, w) == [x] + f;
    }
  }

  /** The first element kept by a filter comes from somewhere in the input. */
  lemma FilterHeadFrom<T>(t: seq<T>, p: T -> bool) returns (m: nat)
    requires Filter(t, p) != []
    ensures m < |t| && t[m] == Filter(t, p)[0]
  {
    FilterMembers(t, p);
    assert Filter(t, p)[0] in t;
    m :| 0 <= m < |t| && t[m] == Filter(t, p)[0];
  }

  lemma FilterInsertBack<T>(x: T, t: seq<T>, p: T -> bool, w: T -> int)
    requires t != [] && w(x) < w(t[0])
    requires Filter(Insert(x, t[1..], w), p)
          == if p(x) then Insert(x, Filter(t[1..], p), w) else Filter(t[1..], p)
    ensures Filter(Insert(x, t, w), p) == if p(x) then Insert(x, Filter(t, p), w) else Filter(t, p)
  {
    var t0, rest := t[0], t[1..];
    var r := Insert(x, rest, w);
    assert t == [t0] + rest;
    assert Insert(x, t, w) == [t0] + r;
    FilterCons(t0, r, p);
    FilterCons(t0, rest, p);
    var fr := Filter(rest, p);
    if p(t0) {
      assert Filter(t, p) == [t0] + fr;
      if p(x) {
        var g := [t0] + fr;
        assert g[0] == t0 && g[1..] == fr;
        assert Insert(x, g, w) == [t0] + Insert(x, fr, w);
      }
    } else {
      assert Filter(t, p) == fr;
    }
  }

  lemma {:induction false} FilterInsert<T>(x: T, t: seq<T>, p: T -> bool, w: T -> int)
    requires NonIncreasing(t, w)
    ensures Filter(Insert(x, t, w), p) == if p(x) then Insert(x, Filter(t, p), w) else Filter(t, p)
  {
    if t == [] || w(x) >= w(t[0]) {
      FilterInsertFront(x, t, p, w);
    } else {
      assert NonIncreasing(t[1..], w);
      FilterInsert(x, t[1..], p, w);
      FilterInsertBack(x, t, p, w);
    }
  }

  /** Sorting then filtering equals filtering then sorting: the sort treats every
    * subset of its input consistently. */
  lemma {:induction false} SortCommutesWithFilter<T>(s: seq<T>, p: T -> bool, w: T -> int)
    ensures SortDesc(Filter(s, p), w) == Filter(SortDesc(s, w), p)
  {
    if s != [] {
      var rest := s[1..];
      SortCommutesWithFilter(rest, p, w);
      SortDescSorted(rest, w);
      FilterInsert(s[0], SortDesc(rest, w), p, w);
      assert s == [s[0]] + rest;
      FilterCons(s[0], rest, p);
      if p(s[0]) {
        var f := [s[0]] + Filter(rest, p);
        assert f[0] == s[0] && f[1..] == Filter(rest, p);
        assert SortDesc(f, w) == Insert(s[0], SortDesc(Filter(rest, p), w), w);
      }
    }
  }

  lemma {:induction false} SortOfEqualWeights<T>(s: seq<T>, w: T -> int, c: int)
    requires forall k :: 0 <= k < |s| ==> w(s[k]) == c
    ensures SortDesc(s, w) == s
  {
    if s != [] {
      SortOfEqualWeights(s[1..], w, c);
    }
  }

  /** Stability: among elements of equal weight the sorted order is the input order. */
  lemma SortStable<T>(s: seq<T>, w: T -> int, c: int)
    ensures Filter(SortDesc(s, w), HasWeight(w, c)) == Filter(s, HasWeight(w, c))
  {
    SortCommutesWithFilter(s, HasWeight(w, c), w);
    FilterMembers(s, HasWeight(w, c));
    SortOfEqualWeights(Filter(s, HasWeight(w, c)), w, c);
  }

  /** Stability survives truncation: the entries of weight `c` kept by `Take` are the
    * first ones of that weight in input order. */
  lemma {:induction false} TakeStable<T>(s: seq<T>, w: T -> int, c: int, k: nat)
    ensures var kept := Filter(Take(SortDesc(s, w), k), HasWeight(w, c));
            var all := Filter(s, HasWeight(w, c));
            |kept| <= |all| && kept == all[..|kept|]
  {
    var r := SortDesc(s, w);
    var t := Take(r, k);
    assert r == t + r[|t|..];
    FilterConcat(t, r[|t|..], HasWeight(w, c));
    SortStable(s, w, c);
  }
}
