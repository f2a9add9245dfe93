/** The dashboard's four statistics: total mistakes, mistakes this week, the current
  * daily streak, and the most repeated mistake type. */
module Dashboard {
  import opened Seqs
  import opened Counting
  import opened Ranking
  import opened Mistakes

  /** Shown as the most repeated type when there are no mistakes. */
  const NO_TYPE: string := "—"

  datatype Stats = Stats(total: nat, thisWeek: nat, streak: nat, topType: string)

  // ---------------------------------------------------------------- streak

  /** How many leading neighbour pairs of `u` are exactly one day apart. */
  function RunLength(u: seq<int>): nat {
    if |u| <= 1 || u[0] - u[1] != 1 then 0 else 1 + RunLength(u[1..])
  }

  /** The streak over the distinct days `u`, newest first: none unless the newest
    * day is today or yesterday, and then one more day per consecutive pair. */
  function StreakOf(u: seq<int>, today: int): nat {
    if u != [] && (u[0] == today || u[0] == today - 1) then 1 + RunLength(u) else 0
  }

  /** The streak loop over `[...new Set(days)]`: start at 1 when the newest day is
    * today or yesterday, add one per neighbour pair one day apart, stop at the first
    * other gap. */
  method CurrentStreak(days: seq<int>, today: int) returns (streak: nat)
    ensures streak == StreakOf(Distinct(days), today)
  {
    streak := 0;
    if |days| > 0 {
      var u := Distinct(days);
      DistinctHead(days);
      if u[0] == today || u[0] == today - 1 {
        streak := 1;
        var i := 1;
        while i < |u|
          invariant 1 <= i <= |u|
          invariant streak == i
          invariant RunLength(u) == i - 1 + RunLength(u[i - 1..])
          decreases |u| - i
        {
          if u[i - 1] - u[i] == 1 {
            assert u[i - 1..][1..] == u[i..];
            streak := streak + 1;
            i := i + 1;
          } else {
            break;
          }
        }
      }
    }
  }

  /** `RunLength` counts the leading pairs one day apart, up to the first pair that
    * is not. */
  lemma {:induction false} RunLengthMeaning(u: seq<int>)
    ensures RunLength(u) < |u| || u == []
    ensures forall k :: 0 <= k < RunLength(u) ==> u[k] - u[k + 1] == 1
    ensures RunLength(u) + 1 < |u| ==> u[RunLength(u)] - u[RunLength(u) + 1] != 1
  {
    if |u| > 1 && u[0] - u[1] == 1 {
      RunLengthMeaning(u[1..]);
      forall k | 1 <= k < RunLength(u) ensures u[k] - u[k + 1] == 1 {
        assert u[1..][k - 1] == u[k];
      }
    }
  }

  /** The streak never exceeds the number of distinct activity days. */
  lemma StreakBounded(days: seq<int>, today: int)
    ensures StreakOf(Distinct(days), today) <= |Distinct(days)|
  {
    RunLengthMeaning(Distinct(days));
  }

  ghost predicate ActiveOn(days: seq<int>, d: int) {
    d in days
  }

  /** The streak is zero exactly when there is no activity or the newest day is
    * neither today nor yesterday. */
  lemma StreakZero(days: seq<int>, today: int)
    ensures StreakOf(Distinct(days), today) == 0 <==>
      days == [] || (days[0] != today && days[0] != today - 1)
  {
    if days != [] {
      DistinctHead(days);
    }
  }

  /** For days listed newest first a non-zero streak `s` is the length of the run of
    * consecutive activity days ending on the newest day: each of the `s` days up to
    * the newest has activity, and the day before them has none. */
  lemma StreakMeaning(days: seq<int>, today: int)
    requires NonIncreasingInts(days)
    ensures var s := StreakOf(Distinct(days), today);
      s > 0 ==>
        && (forall d :: days[0] - s < d <= days[0] ==> ActiveOn(days, d))
        && (forall i :: 0 <= i < |days| ==> days[i] != days[0] - s)
  {
    var u := Distinct(days);
    var s := StreakOf(u, today);
    if s > 0 {
      DistinctHead(days);
      DistinctOfNonIncreasing(days);
      assert u[0] == days[0];
      assert s == 1 + RunLength(u);
      StreakRun(u);
      SameMembers(days);
      forall d | days[0] - s < d <= days[0] ensures ActiveOn(days, d) {
        assert d in u;
      }
      forall i | 0 <= i < |days| ensures days[i] != days[0] - s {
        assert days[i] in u;
        var k :| 0 <= k < |u| && u[k] == days[i];
      }
    }
  }

  /** De-duplicating keeps exactly the same values. */
  lemma SameMembers(s: seq<int>)
    ensures forall d :: d in Distinct(s) <==> d in s
  {
    DistinctMeaning(s);
    forall d | d in Distinct(s) ensures d in s {
      var i :| 0 <= i < |Distinct(s)| && Distinct(s)[i] == d;
    }
    forall d | d in s ensures d in Distinct(s) {
      var i :| 0 <= i < |s| && s[i] == d;
    }
  }

  /** Over strictly decreasing days, the run counted by `RunLength` is a block of
    * consecutive days with a gap right before it. */
  lemma StreakRun(u: seq<int>)
    requires u != [] && StrictlyDecreasing(u)
    ensures var s := 1 + RunLength(u);
      && (forall d :: u[0] - s < d <= u[0] ==> d in u)
      && (forall k :: 0 <= k < |u| ==> u[k] != u[0] - s)
  {
    RunLengthMeaning(u);
    var r := RunLength(u);
    forall d | u[0] - r - 1 < d <= u[0] ensures d in u {
      ConsecutivePrefix(u, u[0] - d);
    }
    StreakGap(u, r);
  }

  /** Past the run, the distinct days skip the day just before it. */
  lemma StreakGap(u: seq<int>, r: nat)
    requires r == RunLength(u) && r < |u| && StrictlyDecreasing(u)
    requires r + 1 < |u| ==> u[r] - u[r + 1] != 1
    ensures forall k :: 0 <= k < |u| ==> u[k] != u[0] - r - 1
  {
    ConsecutivePrefix(u, r);
    forall k | 0 <= k < |u| ensures u[k] != u[0] - r - 1 {
      if k <= r {
        ConsecutivePrefix(u, k);
      } else {
        assert u[r + 1] < u[r] - 1;
        assert u[k] <= u[r + 1];
      }
    }
  }

  lemma {:induction false} ConsecutivePrefix(u: seq<int>, j: nat)
    requires j < |u| && j <= RunLength(u)
    ensures u[j] == u[0] - j
  {
    if j > 0 {
      ConsecutivePrefix(u[1..], j - 1);
    }
  }

  /** Filling the gap just before a streak can lengthen it by more than one day: the
    * new day joins the streak to the run of days before it. */
  lemma FillingGapJoinsRuns()
    ensures StreakOf([10, 8, 7], 10) == 1
    ensures StreakOf([10, 9, 8, 7], 10) == 4
  {
    assert RunLength([10, 8, 7]) == 0;
    assert RunLength([10, 9, 8, 7]) == 3 by {
      assert [10, 9, 8, 7][1..] == [9, 8, 7];
      assert [9, 8, 7][1..] == [8, 7];
      assert [8, 7][1..] == [7];
    }
  }

  /** `more` holds the days of `days` and the day `e`, and no other. */
  ghost predicate WithDay(more: seq<int>, days: seq<int>, e: int) {
    forall x {:trigger x in more} :: x in more <==> x in days || x == e
  }

  /** Logging the day just before the oldest day of a non-zero streak `s` lengthens the
    * streak: by one plus the run of older days it joins, so by exactly one when the day
    * before it has no activity. `more` lists the old days and the new one, newest first. */
  lemma StreakFillsGap(days: seq<int>, more: seq<int>, today: int, e: int)
    requires days != [] && NonIncreasingInts(days) && NonIncreasingInts(more)
    requires StreakOf(Distinct(days), today) > 0
    requires e == days[0] - StreakOf(Distinct(days), today)
    requires WithDay(more, days, e)
    ensures StreakOf(Distinct(more), today) > StreakOf(Distinct(days), today)
    ensures e - 1 !in days ==> StreakOf(Distinct(more), today) == StreakOf(Distinct(days), today) + 1
  {
    var s := StreakOf(Distinct(days), today);
    var t := StreakOf(Distinct(more), today);
    var top := days[0];
    StreakStillLive(days, more, today, e);
    StreakMeaning(days, today);
    StreakMeaning(more, today);
    RunAfterFilling(days, more, top, s, t);
  }

  /** Logging a day two or more days before the oldest day of a non-zero streak leaves
    * the streak as it is. */
  lemma StreakKeepsOlderDay(days: seq<int>, more: seq<int>, today: int, e: int)
    requires days != [] && NonIncreasingInts(days) && NonIncreasingInts(more)
    requires StreakOf(Distinct(days), today) > 0
    requires e < days[0] - StreakOf(Distinct(days), today)
    requires WithDay(more, days, e)
    ensures StreakOf(Distinct(more), today) == StreakOf(Distinct(days), today)
  {
    var s := StreakOf(Distinct(days), today);
    var t := StreakOf(Distinct(more), today);
    var top := days[0];
    StreakStillLive(days, more, today, e);
    assert && (forall x :: top - s < x <= top ==> ActiveOn(days, x))
           && (forall i :: 0 <= i < |days| ==> days[i] != top - s) by {
      StreakMeaning(days, today);
    }
    assert && (forall x :: top - t < x <= top ==> ActiveOn(more, x))
           && (forall i :: 0 <= i < |more| ==> more[i] != top - t) by {
      StreakMeaning(more, today);
    }
    RunAfterOlderDay(days, more, top, s, t, e);
  }

  /** The run of `t` active days ending at `top` over `days` plus the day before a run
    * of `s` days: longer than `s`, and exactly one longer when nothing precedes the new
    * day. */
  lemma RunAfterFilling(days: seq<int>, more: seq<int>, top: int, s: int, t: int)
    requires 0 < s && 0 < t
    requires forall x :: top - s < x <= top ==> ActiveOn(days, x)
    requires WithDay(more, days, top - s)
    requires forall x :: top - t < x <= top ==> ActiveOn(more, x)
    requires forall i :: 0 <= i < |more| ==> more[i] != top - t
    ensures t > s
    ensures top - s - 1 !in days ==> t == s + 1
  {
    assert top - t !in more;
    assert t < s ==> ActiveOn(days, top - t);
    assert t > s + 1 ==> ActiveOn(more, top - s - 1);
  }

  /** The run of `t` active days ending at `top` over `days` plus a day `e` older than the
    * day before a run of `s` days, which that day still ends: the same run. */
  lemma RunAfterOlderDay(days: seq<int>, more: seq<int>, top: int, s: int, t: int, e: int)
    requires 0 < s && 0 < t
    requires e < top - s
    requires forall x :: top - s < x <= top ==> ActiveOn(days, x)
    requires forall i :: 0 <= i < |days| ==> days[i] != top - s
    requires WithDay(more, days, e)
    requires forall x :: top - t < x <= top ==> ActiveOn(more, x)
    requires forall i :: 0 <= i < |more| ==> more[i] != top - t
    ensures t == s
  {
    assert top - s !in days;
    assert top - t !in more;
    assert t < s ==> ActiveOn(days, top - t);
    assert t > s ==> ActiveOn(more, top - s);
  }

  /** Adding a day no later than the newest one keeps the newest day first, and so
    * keeps a non-zero streak non-zero. */
  lemma StreakStillLive(days: seq<int>, more: seq<int>, today: int, e: int)
    requires days != [] && NonIncreasingInts(days) && NonIncreasingInts(more)
    requires StreakOf(Distinct(days), today) > 0
    requires e <= days[0]
    requires WithDay(more, days, e)
    ensures more != [] && more[0] == days[0]
    ensures StreakOf(Distinct(more), today) > 0
  {
    SameNewest(days, more, e);
    StreakZero(days, today);
    StreakZero(more, today);
  }

  /** Adding a day no later than the newest one keeps the newest day first. */
  lemma SameNewest(days: seq<int>, more: seq<int>, e: int)
    requires days != [] && NonIncreasingInts(days) && NonIncreasingInts(more)
    requires e <= days[0]
    requires WithDay(more, days, e)
    ensures more != [] && more[0] == days[0]
  {
    assert days[0] in more;
    var k :| 0 <= k < |more| && more[k] == days[0];
    assert more[0] >= more[k];
    assert more[0] in more;
    if more[0] != e {
      var j :| 0 <= j < |days| && days[j] == more[0];
      assert days[0] >= days[j];
    }
  }

  /** Rows fetched newest first have their days newest first, so the distinct days
    * keep that order. */
  lemma NewestFirstDays(rows: seq<Mistake>, offset: int)
    ensures NonIncreasingInts(ActivityDays(NewestFirst(rows), offset))
    ensures StrictlyDecreasing(Distinct(ActivityDays(NewestFirst(rows), offset)))
  {
    var sorted := NewestFirst(rows);
    SortDescSorted(rows, CreatedAt);
    var days := ActivityDays(sorted, offset);
    forall i, j | 0 <= i < j < |days| ensures days[i] >= days[j] {
      assert CreatedAt(sorted[i]) >= CreatedAt(sorted[j]);
      DayOfMonotone(sorted[j].createdAt, sorted[i].createdAt, offset);
    }
    DistinctOfNonIncreasing(days);
  }

  // ---------------------------------------------------------------- top type

  function NameWeight(e: NameCount): int { e.count }

  /** The first entry of the type tally sorted by count, largest first. */
  function MostRepeated(types: seq<string>): string {
    if types == [] then NO_TYPE
    else
      TallyCounts(types);
      SortDescSorted(Tally(types), NameWeight);
      SortDesc(Tally(types), NameWeight)[0].name
  }

  /** The `forEach` tally and the sort that picks the most repeated type. */
  method TopType(types: seq<string>) returns (top: string)
    ensures top == MostRepeated(types)
  {
    top := NO_TYPE;
    if |types| > 0 {
      var counts: seq<NameCount> := [];
      for i := 0 to |types|
        invariant counts == Tally(types[..i])
      {
        assert types[..i + 1][..i] == types[..i];
        counts := Bump(counts, types[i]);
      }
      assert types[..|types|] == types;
      TallyCounts(types);
      SortDescSorted(counts, NameWeight);
      top := SortDesc(counts, NameWeight)[0].name;
    }
  }

  /** `top` occurs most often, and every type first seen before it occurs fewer times. */
  ghost predicate FirstMostRepeated(types: seq<string>, top: string) {
    var d := Distinct(types);
    && top in types
    && (forall k :: 0 <= k < |types| ==> multiset(types)[types[k]] <= multiset(types)[top])
    && exists p :: 0 <= p < |d| && d[p] == top &&
         forall q :: 0 <= q < p ==> multiset(types)[d[q]] < multiset(types)[top]
  }

  /** The most repeated type has the largest count, and ties go to the type seen first. */
  lemma MostRepeatedMeaning(types: seq<string>)
    ensures types == [] ==> MostRepeated(types) == NO_TYPE
    ensures types != [] ==> FirstMostRepeated(types, MostRepeated(types))
  {
    if types != [] {
      var t := Tally(types);
      var sorted := SortDesc(t, NameWeight);
      TallyCounts(types);
      SortDescSorted(t, NameWeight);
      var top := sorted[0];
      assert top in multiset(t);
      var p :| 0 <= p < |t| && t[p] == top;
      var k := FirstWithWeight(t, top.count, p);
      SortedHeadIsFirstMax(t, k);
      assert Names(t)[k] == top.name;
      MostRepeatedIsMax(types);
      forall q | 0 <= q < k ensures multiset(types)[Distinct(types)[q]] < top.count {
        assert Names(t)[q] == t[q].name;
      }
      assert top.name in Distinct(types);
    }
  }

  /** The sorted tally's head is the first tally entry of the largest count. */
  lemma SortedHeadIsFirstMax(t: seq<NameCount>, k: nat)
    requires t != [] && k < |t|
    requires t[k].count == SortDesc(t, NameWeight)[0].count
    requires forall j :: 0 <= j < k ==> t[j].count != t[k].count
    ensures SortDesc(t, NameWeight)[0] == t[k]
    ensures forall j :: 0 <= j < k ==> t[j].count < t[k].count
  {
    var sorted := SortDesc(t, NameWeight);
    SortDescSorted(t, NameWeight);
    var c := t[k].count;
    FilterHead(t, HasWeight(NameWeight, c), k);
    FilterHead(sorted, HasWeight(NameWeight, c), 0);
    SortStable(t, NameWeight, c);
    forall j | 0 <= j < k ensures t[j].count < c {
      assert t[j] in multiset(sorted);
      var n :| 0 <= n < |sorted| && sorted[n] == t[j];
      assert NameWeight(sorted[0]) >= NameWeight(sorted[n]);
    }
  }

  /** No type occurs more often than the most repeated one. */
  lemma MostRepeatedIsMax(types: seq<string>)
    requires types != []
    ensures forall i :: 0 <= i < |types| ==>
      multiset(types)[types[i]] <= multiset(types)[MostRepeated(types)]
  {
    var t := Tally(types);
    var sorted := SortDesc(t, NameWeight);
    TallyCounts(types);
    SortDescSorted(t, NameWeight);
    assert sorted[0] in multiset(t);
    var p :| 0 <= p < |t| && t[p] == sorted[0];
    assert Names(t)[p] == sorted[0].name;
    DistinctMeaning(types);
    HeadIsHeaviest(t, sorted);
    forall i | 0 <= i < |types| ensures multiset(types)[types[i]] <= sorted[0].count {
      assert types[i] in Distinct(types);
      var m :| 0 <= m < |t| && Names(t)[m] == types[i];
      assert t[m] in t;
    }
  }

  /** The head of a heaviest-first permutation counts at least as much as any entry. */
  lemma HeadIsHeaviest(t: seq<NameCount>, sorted: seq<NameCount>)
    requires multiset(sorted) == multiset(t) && NonIncreasing(sorted, NameWeight) && sorted != []
    ensures forall e :: e in t ==> e.count <= sorted[0].count
  {
    forall e | e in t ensures e.count <= sorted[0].count {
      assert e in multiset(sorted);
      var n :| 0 <= n < |sorted| && sorted[n] == e;
      assert NameWeight(sorted[0]) >= NameWeight(sorted[n]);
    }
  }

  /** The first position of `t` holding an entry of count `c`, given one at `p`. */
  lemma FirstWithWeight(t: seq<NameCount>, c: int, p: nat) returns (k: nat)
    requires p < |t| && t[p].count == c
    ensures k <= p && t[k].count == c && forall j :: 0 <= j < k ==> t[j].count != c
  {
    k := 0;
    while t[k].count != c
      invariant k <= p && forall j :: 0 <= j < k ==> t[j].count != c
      decreases p - k
    {
      k := k + 1;
    }
  }

  // ---------------------------------------------------------------- this week

  function CreatedSince(cutoff: int): Mistake -> bool {
    (m: Mistake) => m.createdAt >= cutoff
  }

  /** The mistakes created in the last seven days: `created_at >= now - 7 days`. */
  function ThisWeek(rows: seq<Mistake>, now: int): nat {
    |Filter(rows, CreatedSince(now - 7 * DAY_MS))|
  }

  /** On one snapshot this week's count never exceeds the total, and equals it when
    * every mistake is recent. */
  lemma ThisWeekAtMostTotal(rows: seq<Mistake>, now: int)
    ensures ThisWeek(rows, now) <= |rows|
    ensures (forall k :: 0 <= k < |rows| ==> rows[k].createdAt >= now - 7 * DAY_MS) ==>
      ThisWeek(rows, now) == |rows|
  {
    if forall k :: 0 <= k < |rows| ==> rows[k].createdAt >= now - 7 * DAY_MS {
      FilterKeepsAll(rows, CreatedSince(now - 7 * DAY_MS));
    }
  }

  // ---------------------------------------------------------------- all four

  /** The statistics for one snapshot of the user's mistakes at time `now`, with days
    * taken in a time zone `offset` milliseconds ahead of UTC. */
  method FetchStats(rows: seq<Mistake>, now: int, offset: int) returns (stats: Stats)
    ensures stats.total == |rows|
    ensures stats.thisWeek == ThisWeek(rows, now)
    ensures stats.streak == StreakOf(Distinct(ActivityDays(NewestFirst(rows), offset)), DayOf(now, offset))
    ensures stats.topType == MostRepeated(TypesOf(rows))
  {
    var streak := CurrentStreak(ActivityDays(NewestFirst(rows), offset), DayOf(now, offset));
    var top := TopType(TypesOf(rows));
    stats := Stats(|rows|, ThisWeek(rows, now), streak, top);
  }
}
