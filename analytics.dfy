/** The analytics page: mistakes per subject and per type, a zero-filled series of
  * the last 30 days, and the five weakest chapters among unreviewed mistakes. */
module Analytics {
  import opened Seqs
  import opened Counting
  import opened Ranking
  import opened Mistakes

  /** The series covers this many days, ending today. */
  const WINDOW: nat := 30
  /** The number of weak chapters shown. */
  const WEAK_LIMIT: nat := 5

  /** One point of the daily series. */
  datatype DayCount = DayCount(day: int, count: nat)

  datatype Report = Report(
    bySubject: seq<NameCount>,
    byType: seq<NameCount>,
    daily: seq<DayCount>,
    weakAreas: seq<ChapterCount>)

  /** `dayCounts[key] || 0`. */
  function Lookup(counts: map<int, nat>, key: int): nat {
    if key in counts then counts[key] else 0
  }

  /** The day dictionary holds, for every day, how many of `days` fall on it. */
  ghost predicate DayCountsOf(counts: map<int, nat>, days: seq<int>) {
    forall d :: Lookup(counts, d) == multiset(days)[d]
  }

  /** Counting one more day keeps the dictionary in step. */
  lemma DayStep(counts: map<int, nat>, days: seq<int>, day: int)
    requires DayCountsOf(counts, days)
    ensures DayCountsOf(counts[day := Lookup(counts, day) + 1], days + [day])
  {
  }

  /** The `n` days starting at `lo`, each with the number of entries of `ds` on it. */
  function Window(ds: seq<int>, lo: int, n: nat): seq<DayCount> {
    if n == 0 then [] else Window(ds, lo, n - 1) + [DayCount(lo + n - 1, multiset(ds)[lo + n - 1])]
  }

  /** The series of the last 30 UTC days, oldest first. */
  function DailySeries(rows: seq<Mistake>, today: int): seq<DayCount> {
    Window(ActivityDays(rows, 0), today - (WINDOW - 1), WINDOW)
  }

  /** The chapters with the most unreviewed mistakes. */
  function WeakAreas(rows: seq<Mistake>): seq<ChapterCount> {
    RankChapters(Unreviewed(rows), WEAK_LIMIT)
  }

  /** What the page shows for one snapshot of the mistakes at time `now`. */
  function ReportOf(rows: seq<Mistake>, now: int): Report {
    Report(Tally(SubjectsOf(rows)), Tally(TypesOf(rows)), DailySeries(rows, DayOf(now, 0)), WeakAreas(rows))
  }

  /** The analytics for one snapshot: the `forEach` pass, the 30-day loop and the
    * ranking of weak chapters. */
  method Analyze(rows: seq<Mistake>, now: int) returns (report: Report)
    ensures report == ReportOf(rows, now)
  {
    var subjectCounts, typeCounts, dayCounts, chapterCounts := Tallies(rows);
    var days := LastDays(dayCounts, now, rows);
    var weak := Take(SortDesc(chapterCounts, ChapterWeight), WEAK_LIMIT);
    report := Report(subjectCounts, typeCounts, days, weak);
  }

  /** The `forEach` pass that fills the four dictionaries; only unreviewed mistakes
    * reach the chapter dictionary. */
  method Tallies(rows: seq<Mistake>)
    returns (subjectCounts: seq<NameCount>, typeCounts: seq<NameCount>,
             dayCounts: map<int, nat>, chapterCounts: seq<ChapterCount>)
    ensures subjectCounts == Tally(SubjectsOf(rows))
    ensures typeCounts == Tally(TypesOf(rows))
    ensures DayCountsOf(dayCounts, ActivityDays(rows, 0))
    ensures chapterCounts == ChapterTally(ChapterPairs(Unreviewed(rows)))
  {
    subjectCounts, typeCounts, dayCounts, chapterCounts := [], [], map[], [];
    for i := 0 to |rows|
      invariant subjectCounts == Tally(SubjectsOf(rows[..i]))
      invariant typeCounts == Tally(TypesOf(rows[..i]))
      invariant DayCountsOf(dayCounts, ActivityDays(rows[..i], 0))
      invariant chapterCounts == ChapterTally(ChapterPairs(Unreviewed(rows[..i])))
    {
      var m := rows[i];
      PrefixStep(rows, i);
      subjectCounts := Bump(subjectCounts, m.subject);
      typeCounts := Bump(typeCounts, m.mistakeType);
      var day := DayOf(m.createdAt, 0);
      DayStep(dayCounts, ActivityDays(rows[..i], 0), day);
      dayCounts := dayCounts[day := Lookup(dayCounts, day) + 1];
      if !m.isReviewed {
        chapterCounts := BumpChapter(chapterCounts, m.chapter, m.subject);
      }
    }
    assert rows[..|rows|] == rows;
  }

  /** The loop `for (let i = 29; i >= 0; i--)` that pushes one entry per day, reading
    * the day dictionary with a default of 0. */
  method LastDays(dayCounts: map<int, nat>, now: int, ghost rows: seq<Mistake>) returns (days: seq<DayCount>)
    requires DayCountsOf(dayCounts, ActivityDays(rows, 0))
    ensures days == DailySeries(rows, DayOf(now, 0))
  {
    var today := DayOf(now, 0);
    days := [];
    var i := WINDOW as int - 1;
    while i >= 0
      invariant -1 <= i <= WINDOW - 1
      invariant days == Window(ActivityDays(rows, 0), today - (WINDOW - 1), WINDOW - 1 - i)
    {
      DaysBefore(now, i, 0);
      var key := DayOf(now - i * DAY_MS, 0);
      days := days + [DayCount(key, Lookup(dayCounts, key))];
      i := i - 1;
    }
  }

  /** How each per-row tally grows by one row. */
  lemma PrefixStep(rows: seq<Mistake>, i: nat)
    requires i < |rows|
    ensures Tally(SubjectsOf(rows[..i + 1])) == Bump(Tally(SubjectsOf(rows[..i])), rows[i].subject)
    ensures Tally(TypesOf(rows[..i + 1])) == Bump(Tally(TypesOf(rows[..i])), rows[i].mistakeType)
    ensures ActivityDays(rows[..i + 1], 0) == ActivityDays(rows[..i], 0) + [DayOf(rows[i].createdAt, 0)]
    ensures ChapterTally(ChapterPairs(Unreviewed(rows[..i + 1]))) ==
      if rows[i].isReviewed then ChapterTally(ChapterPairs(Unreviewed(rows[..i])))
      else BumpChapter(ChapterTally(ChapterPairs(Unreviewed(rows[..i]))), rows[i].chapter, rows[i].subject)
  {
    var pre, m := rows[..i], rows[i];
    assert rows[..i + 1] == pre + [m];
    KeysStep(SubjectsOf(pre + [m]), SubjectsOf(pre), m.subject);
    KeysStep(TypesOf(pre + [m]), TypesOf(pre), m.mistakeType);
    UnreviewedStep(pre, m);
  }

  lemma KeysStep(longer: seq<string>, keys: seq<string>, k: string)
    requires longer == keys + [k]
    ensures Tally(longer) == Bump(Tally(keys), k)
  {
    assert longer[..|longer| - 1] == keys;
  }

  lemma UnreviewedStep(pre: seq<Mistake>, m: Mistake)
    ensures ChapterTally(ChapterPairs(Unreviewed(pre + [m]))) ==
      if m.isReviewed then ChapterTally(ChapterPairs(Unreviewed(pre)))
      else BumpChapter(ChapterTally(ChapterPairs(Unreviewed(pre))), m.chapter, m.subject)
  {
    UnreviewedAppend(pre, m);
    if !m.isReviewed {
      var ps := ChapterPairs(Unreviewed(pre) + [m]);
      assert ps[..|ps| - 1] == ChapterPairs(Unreviewed(pre));
    }
  }

  lemma UnreviewedAppend(pre: seq<Mistake>, m: Mistake)
    ensures Unreviewed(pre + [m]) == if m.isReviewed then Unreviewed(pre) else Unreviewed(pre) + [m]
  {
    FilterConcat(pre, [m], IsUnreviewed);
    FilterCons(m, [], IsUnreviewed);
    assert [m] + [] == [m];
  }

  // ---------------------------------------------------------------- counts

  /** The subject and type counts list each value that occurs once, in first-seen
    * order, with its number of occurrences, and they add up to the number of rows. */
  lemma CountsMeaning(rows: seq<Mistake>)
    ensures CountsOf(Tally(SubjectsOf(rows)), SubjectsOf(rows)) && Total(Tally(SubjectsOf(rows))) == |rows|
    ensures CountsOf(Tally(TypesOf(rows)), TypesOf(rows)) && Total(Tally(TypesOf(rows))) == |rows|
  {
    TallyCounts(SubjectsOf(rows));
    TallyTotal(SubjectsOf(rows));
    TallyCounts(TypesOf(rows));
    TallyTotal(TypesOf(rows));
  }

  // ---------------------------------------------------------------- daily series

  /** The window holds `n` consecutive days from `lo`, each with its count. */
  lemma {:induction false} WindowShape(ds: seq<int>, lo: int, n: nat)
    ensures |Window(ds, lo, n)| == n
    ensures forall k :: 0 <= k < n ==>
      Window(ds, lo, n)[k] == DayCount(lo + k, multiset(ds)[lo + k])
  {
    if n > 0 {
      WindowShape(ds, lo, n - 1);
    }
  }

  /** The series has 30 entries, oldest first and one day apart, the last one today;
    * a day without mistakes counts 0. */
  lemma DailySeriesShape(rows: seq<Mistake>, today: int)
    ensures var s := DailySeries(rows, today);
      && |s| == WINDOW
      && s[WINDOW - 1].day == today
      && (forall k :: 0 <= k < WINDOW - 1 ==> s[k + 1].day == s[k].day + 1)
      && (forall k :: 0 <= k < WINDOW ==> s[k].count == |Filter(rows, OnDay(s[k].day))|)
  {
    var ds := ActivityDays(rows, 0);
    WindowShape(ds, today - (WINDOW - 1), WINDOW);
    var s := DailySeries(rows, today);
    forall k | 0 <= k < WINDOW ensures s[k].count == |Filter(rows, OnDay(s[k].day))| {
      DayMultiplicity(rows, today - (WINDOW - 1) + k);
    }
  }

  function OnDay(d: int): Mistake -> bool {
    (m: Mistake) => DayOf(m.createdAt, 0) == d
  }

  /** The number of rows on a day is the number of times the day occurs. */
  lemma {:induction false} DayMultiplicity(rows: seq<Mistake>, d: int)
    ensures multiset(ActivityDays(rows, 0))[d] == |Filter(rows, OnDay(d))|
  {
    if rows != [] {
      DayMultiplicity(rows[1..], d);
      assert ActivityDays(rows, 0) == [DayOf(rows[0].createdAt, 0)] + ActivityDays(rows[1..], 0);
    }
  }

  function SeriesTotal(s: seq<DayCount>): nat {
    if s == [] then 0 else SeriesTotal(s[..|s| - 1]) + s[|s| - 1].count
  }

  function InRange(lo: int, hi: int): int -> bool {
    d => lo <= d < hi
  }

  /** The window total counts the entries that fall inside the window. */
  lemma {:induction false} WindowTotal(ds: seq<int>, lo: int, n: nat)
    ensures SeriesTotal(Window(ds, lo, n)) == |Filter(ds, InRange(lo, lo + n))|
  {
    if n == 0 {
      EmptyRange(ds, lo);
    } else {
      var w := Window(ds, lo, n);
      assert w[..|w| - 1] == Window(ds, lo, n - 1);
      WindowTotal(ds, lo, n - 1);
      RangeGrows(ds, lo, lo + n - 1);
    }
  }

  lemma {:induction false} EmptyRange(ds: seq<int>, lo: int)
    ensures Filter(ds, InRange(lo, lo)) == []
  {
    if ds != [] {
      EmptyRange(ds[1..], lo);
    }
  }

  /** Widening the range by one day adds that day's entries. */
  lemma {:induction false} RangeGrows(ds: seq<int>, lo: int, hi: int)
    ensures |Filter(ds, InRange(lo, hi + 1))| == |Filter(ds, InRange(lo, hi))| + if lo <= hi then multiset(ds)[hi] else 0
  {
    if ds != [] {
      RangeGrows(ds[1..], lo, hi);
      assert ds == [ds[0]] + ds[1..];
    }
  }

  /** Mistakes outside the window add nothing, so the series never sums to more than
    * the number of mistakes. */
  lemma DailySeriesTotal(rows: seq<Mistake>, today: int)
    ensures SeriesTotal(DailySeries(rows, today)) <= |rows|
  {
    WindowTotal(ActivityDays(rows, 0), today - (WINDOW - 1), WINDOW);
  }

  // ---------------------------------------------------------------- weak areas

  /** The weak areas are at most five distinct chapters of unreviewed mistakes,
    * largest count first, each counting its unreviewed mistakes and carrying the
    * subject of the first one; no chapter left out has more. */
  lemma WeakAreasMeaning(rows: seq<Mistake>)
    ensures RankingOf(WeakAreas(rows), Unreviewed(rows), WEAK_LIMIT)
  {
    RankChaptersMeaning(Unreviewed(rows), WEAK_LIMIT);
  }

  /** Reviewed mistakes never contribute: adding one leaves the weak areas as they are. */
  lemma WeakAreasIgnoreReviewed(rows: seq<Mistake>, m: Mistake)
    requires m.isReviewed
    ensures WeakAreas(rows + [m]) == WeakAreas(rows)
  {
    UnreviewedAppend(rows, m);
  }

  /** Marking a mistake reviewed ranks the remaining unreviewed mistakes only. */
  lemma WeakAreasAfterReview(rows: seq<Mistake>, id: string, now: int)
    ensures WeakAreas(MarkReviewed(rows, id, now)) == RankChapters(RemoveId(Unreviewed(rows), id), WEAK_LIMIT)
  {
    MarkReviewedUnreviewed(rows, id, now);
  }
}
