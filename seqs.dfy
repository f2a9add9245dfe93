/** Sequence helpers shared by the pages: `Array.prototype.filter` and de-duplication
  * through a `Set` (which keeps first-insertion order). */
module Seqs {

  /** No value occurs twice. */
  ghost predicate NoDuplicates<T>(s: seq<T>) {
    forall i, j :: 0 <= i < j < |s| ==> s[i] != s[j]
  }

  /** The elements of `s` that satisfy `p`, in their original order. */
  function Filter<T>(s: seq<T>, p: T -> bool): (r: seq<T>)
    ensures |r| <= |s|
  {
    if s == [] then []
    else if p(s[0]) then [s[0]] + Filter(s[1..], p)
    else Filter(s[1..], p)
  }

  /** The filter keeps exactly the elements that satisfy `p`. */
  lemma {:induction false} FilterMembers<T>(s: seq<T>, p: T -> bool)
    ensures forall i :: 0 <= i < |Filter(s, p)| ==> Filter(s, p)[i] in s && p(Filter(s, p)[i])
    ensures forall i :: 0 <= i < |s| && p(s[i]) ==> s[i] in Filter(s, p)
  {
    if s != [] {
      FilterMembers(s[1..], p);
      assert s == [s[0]] + s[1..];
      forall i | 0 <= i < |s| && p(s[i]) ensures s[i] in Filter(s, p) {
        if i > 0 {
          assert s[i] == s[1..][i - 1];
        }
      }
    }
  }

  lemma {:induction false} FilterConcat<T>(a: seq<T>, b: seq<T>, p: T -> bool)
    ensures Filter(a + b, p) == Filter(a, p) + Filter(b, p)
  {
    if a == [] {
      assert a + b == b;
    } else {
      var ab := a + b;
      assert ab[0] == a[0] && ab[1..] == a[1..] + b;
      FilterConcat(a[1..], b, p);
      if p(a[0]) {
        calc {
          Filter(ab, p);
          [a[0]] + Filter(a[1..] + b, p);
          [a[0]] + (Filter(a[1..], p) + Filter(b, p));
          ([a[0]] + Filter(a[1..], p)) + Filter(b, p);
        }
      }
    }
  }

  /** Filtering keeps exactly the occurrences that satisfy `p`. */
  lemma {:induction false} FilterMultiplicity<T>(s: seq<T>, p: T -> bool, x: T)
    ensures multiset(Filter(s, p))[x] == if p(x) then multiset(s)[x] else 0
  {
    if s != [] {
      FilterMultiplicity(s[1..], p, x);
      assert s == [s[0]] + s[1..];
    }
  }

  /** The first element kept is the first element that satisfies `p`. */
  lemma {:induction false} FilterHead<T>(s: seq<T>, p: T -> bool, k: nat)
    requires k < |s| && p(s[k]) && forall j :: 0 <= j < k ==> !p(s[j])
    ensures Filter(s, p) != [] && Filter(s, p)[0] == s[k]
  {
    if k > 0 {
      FilterHead(s[1..], p, k - 1);
    }
  }

  /** Filtering depends only on which elements the predicate accepts. */
  lemma {:induction false} FilterSame<T>(s: seq<T>, p: T -> bool, q: T -> bool)
    requires forall x :: p(x) == q(x)
    ensures Filter(s, p) == Filter(s, q)
  {
    if s != [] {
      FilterSame(s[1..], p, q);
    }
  }

  /** A filter that every element passes changes nothing. */
  lemma {:induction false} FilterKeepsAll<T>(s: seq<T>, p: T -> bool)
    requires forall x :: x in s ==> p(x)
    ensures Filter(s, p) == s
  {
    if s != [] {
      FilterKeepsAll(s[1..], p);
    }
  }

  /** The distinct values of `s`, each at the place of its first occurrence:
    * `[...new Set(s)]`. */
  function Distinct<T(==)>(s: seq<T>): (r: seq<T>)
    ensures |r| <= |s|
  {
    if s == [] then []
    else
      var d := Distinct(s[..|s| - 1]);
      if s[|s| - 1] in d then d else d + [s[|s| - 1]]
  }

  /** One step of `Distinct`: the last value is appended unless it was seen before. */
  lemma DistinctStep<T>(s: seq<T>)
    requires s != []
    ensures var d := Distinct(s[..|s| - 1]);
      Distinct(s) == if s[|s| - 1] in d then d else d + [s[|s| - 1]]
  {
  }

  /** `Distinct` keeps exactly the values of `s`, each once. */
  lemma DistinctMeaning<T>(s: seq<T>)
    ensures forall i :: 0 <= i < |Distinct(s)| ==> Distinct(s)[i] in s
    ensures forall i :: 0 <= i < |s| ==> s[i] in Distinct(s)
    ensures NoDuplicates(Distinct(s))
  {
    DistinctInInput(s);
    DistinctCovers(s);
    DistinctNoDuplicates(s);
  }

  lemma {:induction false} DistinctInInput<T>(s: seq<T>)
    ensures forall x :: x in Distinct(s) ==> x in s
  {
    if s != [] {
      var init := s[..|s| - 1];
      DistinctInInput(init);
      DistinctStep(s);
      assert forall x :: x in init ==> x in s;
    }
  }

  lemma {:induction false} DistinctCovers<T>(s: seq<T>)
    ensures forall x :: x in s ==> x in Distinct(s)
  {
    if s != [] {
      var init := s[..|s| - 1];
      DistinctCovers(init);
      DistinctStep(s);
      assert s == init + [s[|s| - 1]];
    }
  }

  lemma {:induction false} DistinctNoDuplicates<T>(s: seq<T>)
    ensures NoDuplicates(Distinct(s))
  {
    if s != [] {
      var init, x := s[..|s| - 1], s[|s| - 1];
      DistinctNoDuplicates(init);
      DistinctStep(s);
      var d := Distinct(init);
      if x !in d {
        var r := d + [x];
        forall i, j | 0 <= i < j < |r| ensures r[i] != r[j] {
          if j == |d| {
            assert r[i] == d[i];
          }
        }
      }
    }
  }

  /** The first distinct value is the first value of the input. */
  lemma {:induction false} DistinctHead<T>(s: seq<T>)
    requires s != []
    ensures Distinct(s) != [] && Distinct(s)[0] == s[0]
  {
    if |s| > 1 {
      DistinctHead(s[..|s| - 1]);
    }
  }

  ghost predicate NonIncreasingInts(s: seq<int>) {
    forall i, j :: 0 <= i < j < |s| ==> s[i] >= s[j]
  }

  ghost predicate StrictlyDecreasing(s: seq<int>) {
    forall i, j :: 0 <= i < j < |s| ==> s[i] > s[j]
  }

  /** De-duplicating a non-increasing sequence keeps its last value last. */
  lemma {:induction false} DistinctLast(s: seq<int>)
    requires s != [] && NonIncreasingInts(s)
    ensures Distinct(s) != [] && Distinct(s)[|Distinct(s)| - 1] == s[|s| - 1]
  {
    var init, x := s[..|s| - 1], s[|s| - 1];
    DistinctStep(s);
    if init != [] {
      assert NonIncreasingInts(init);
      DistinctLast(init);
      var d := Distinct(init);
      if x in d {
        DistinctMeaning(init);
        var k :| 0 <= k < |d| && d[k] == x;
        assert d[k] in init;
        var m :| 0 <= m < |init| && init[m] == x;
        assert s[m] == x && m <= |s| - 2;
        assert s[m] >= s[|s| - 2] >= s[|s| - 1];
        assert Distinct(s) == d && d[|d| - 1] == s[|s| - 2] == x;
      } else {
        assert Distinct(s) == d + [x];
      }
    } else {
      assert Distinct(s) == [x];
    }
  }

  /** De-duplicating a non-increasing sequence makes it strictly decreasing: the
    * distinct days keep the newest-first order of the input. */
  lemma {:induction false} DistinctOfNonIncreasing(s: seq<int>)
    requires NonIncreasingInts(s)
    ensures StrictlyDecreasing(Distinct(s))
  {
    if |s| > 1 {
      var init, x := s[..|s| - 1], s[|s| - 1];
      assert NonIncreasingInts(init);
      DistinctOfNonIncreasing(init);
      DistinctLast(init);
      DistinctStep(s);
      var d := Distinct(init);
      if x !in d {
        var last := d[|d| - 1];
        assert last == s[|s| - 2] >= x;
        var r := d + [x];
        assert StrictlyDecreasing(d);
        forall i, j | 0 <= i < j < |r| ensures r[i] > r[j] {
          if j == |d| {
            assert d[i] >= last && d[i] != x;
          } else {
            assert r[i] == d[i] && r[j] == d[j];
          }
        }
      }
    }
  }
}
