/** The `mistakes` table row every page reads, the day arithmetic the pages share,
  * and the chapter ranking that the analytics page and the study planner both build. */
module Mistakes {
  import opened Wrappers
  import opened Seqs
  import opened Counting
  import opened Ranking

  /** Milliseconds in a day: `86400000`, also written `1000 * 60 * 60 * 24`. */
  const DAY_MS: int := 86400000

  /** One row of the `mistakes` table; `createdAt` and `reviewedAt` are epoch milliseconds. */
  datatype Mistake = Mistake(
    id: string,
    subject: string,
    chapter: string,
    mistakeType: string,
    difficulty: string,
    notes: Option<string>,
    isReviewed: bool,
    reviewedAt: Option<int>,
    createdAt: int)

  /** The row invariant: a review time is present exactly for reviewed rows, and it is
    * no earlier than the creation time. */
  ghost predicate WellFormed(m: Mistake) {
    && (m.reviewedAt.Some? <==> m.isReviewed)
    && (m.reviewedAt.Some? ==> m.reviewedAt.value >= m.createdAt)
  }

  /** The calendar day (days since the epoch) a timestamp falls on in a time zone
    * `offset` milliseconds ahead of UTC. With offset 0 this is the date part of
    * `toISOString()`; the division rounds down, as `Math.floor` does. */
  function DayOf(ms: int, offset: int): int {
    (ms + offset) / DAY_MS
  }

  /** A day is the block of `DAY_MS` milliseconds holding the timestamp. */
  lemma DayOfBounds(ms: int, offset: int)
    ensures DayOf(ms, offset) * DAY_MS <= ms + offset < (DayOf(ms, offset) + 1) * DAY_MS
  {
  }

  /** Later timestamps never fall on earlier days. */
  lemma DayOfMonotone(a: int, b: int, offset: int)
    requires a <= b
    ensures DayOf(a, offset) <= DayOf(b, offset)
  {
    DayOfBounds(a, offset);
    DayOfBounds(b, offset);
  }

  /** The timestamp one day earlier falls on the previous day: `Date.now() - 86400000`
    * is "yesterday". */
  lemma DayBefore(ms: int, offset: int)
    ensures DayOf(ms - DAY_MS, offset) == DayOf(ms, offset) - 1
  {
    DayOfBounds(ms, offset);
    DayOfBounds(ms - DAY_MS, offset);
  }

  /** `n` days earlier is `n` calendar days earlier. */
  lemma DaysBefore(ms: int, n: int, offset: int)
    ensures DayOf(ms - n * DAY_MS, offset) == DayOf(ms, offset) - n
  {
    var q := DayOf(ms, offset);
    DayOfBounds(ms, offset);
    assert (q - n) * DAY_MS <= ms - n * DAY_MS + offset < (q - n + 1) * DAY_MS;
  }

  /** Ordering weights: newest first, and oldest first. */
  function CreatedAt(m: Mistake): int { m.createdAt }
  function OldestFirst(m: Mistake): int { -m.createdAt }

  /** `ORDER BY created_at DESC`. */
  function NewestFirst(rows: seq<Mistake>): seq<Mistake> {
    SortDesc(rows, CreatedAt)
  }

  predicate IsUnreviewed(m: Mistake) { !m.isReviewed }

  function Unreviewed(rows: seq<Mistake>): seq<Mistake> {
    Filter(rows, IsUnreviewed)
  }

  function HasNotId(id: string): Mistake -> bool {
    (m: Mistake) => m.id != id
  }

  /** `prev.filter((m) => m.id !== id)`. */
  function RemoveId(rows: seq<Mistake>, id: string): seq<Mistake> {
    Filter(rows, HasNotId(id))
  }

  /** `update({ is_reviewed: true, reviewed_at: now }).eq('id', id)` on the table. */
  function MarkReviewed(rows: seq<Mistake>, id: string, now: int): (r: seq<Mistake>)
    ensures |r| == |rows|
  {
    if rows == [] then []
    else
      var m := rows[0];
      [if m.id == id then m.(isReviewed := true, reviewedAt := Some(now)) else m]
        + MarkReviewed(rows[1..], id, now)
  }

  /** Marking a row reviewed keeps the row invariant when it happens no earlier than
    * the row was created. */
  lemma {:induction false} MarkReviewedWellFormed(rows: seq<Mistake>, id: string, now: int)
    requires forall k :: 0 <= k < |rows| ==> WellFormed(rows[k])
    requires forall k :: 0 <= k < |rows| && rows[k].id == id ==> rows[k].createdAt <= now
    ensures forall k :: 0 <= k < |rows| ==> WellFormed(MarkReviewed(rows, id, now)[k])
  {
    if rows != [] {
      MarkReviewedWellFormed(rows[1..], id, now);
      var r := MarkReviewed(rows, id, now);
      forall k | 1 <= k < |rows| ensures WellFormed(r[k]) {
        assert r[k] == MarkReviewed(rows[1..], id, now)[k - 1];
      }
    }
  }

  /** After marking, the unreviewed rows are the previously unreviewed rows without
    * that id, in the same order. */
  lemma {:induction false} MarkReviewedUnreviewed(rows: seq<Mistake>, id: string, now: int)
    ensures Unreviewed(MarkReviewed(rows, id, now)) == RemoveId(Unreviewed(rows), id)
  {
    if rows != [] {
      var m := rows[0];
      var m' := if m.id == id then m.(isReviewed := true, reviewedAt := Some(now)) else m;
      var tail := MarkReviewed(rows[1..], id, now);
      MarkReviewedUnreviewed(rows[1..], id, now);
      assert MarkReviewed(rows, id, now) == [m'] + tail;
      FilterCons(m', tail, IsUnreviewed);
      FilterCons(m, rows[1..], IsUnreviewed);
      if IsUnreviewed(m) {
        FilterCons(m, Unreviewed(rows[1..]), HasNotId(id));
      }
    }
  }

  function SubjectsOf(rows: seq<Mistake>): (r: seq<string>)
    ensures |r| == |rows| && forall k :: 0 <= k < |rows| ==> r[k] == rows[k].subject
  {
    seq(|rows|, k requires 0 <= k < |rows| => rows[k].subject)
  }

  function TypesOf(rows: seq<Mistake>): (r: seq<string>)
    ensures |r| == |rows| && forall k :: 0 <= k < |rows| ==> r[k] == rows[k].mistakeType
  {
    seq(|rows|, k requires 0 <= k < |rows| => rows[k].mistakeType)
  }

  /** The calendar day of each row, in row order. */
  function ActivityDays(rows: seq<Mistake>, offset: int): (r: seq<int>)
    ensures |r| == |rows| && forall k :: 0 <= k < |rows| ==> r[k] == DayOf(rows[k].createdAt, offset)
  {
    seq(|rows|, k requires 0 <= k < |rows| => DayOf(rows[k].createdAt, offset))
  }

  function ChapterWeight(c: ChapterCount): int { c.count }

  /** The `(chapter, subject)` of each row, in row order. */
  function ChapterPairs(rows: seq<Mistake>): (r: seq<(string, string)>)
    ensures |r| == |rows| && forall k :: 0 <= k < |rows| ==> r[k] == (rows[k].chapter, rows[k].subject)
  {
    seq(|rows|, k requires 0 <= k < |rows| => (rows[k].chapter, rows[k].subject))
  }

  function ChapterNames(rows: seq<Mistake>): (r: seq<string>)
    ensures |r| == |rows| && forall k :: 0 <= k < |rows| ==> r[k] == rows[k].chapter
  {
    seq(|rows|, k requires 0 <= k < |rows| => rows[k].chapter)
  }

  /** Group the rows by chapter, rank by count (largest first, ties in first-seen
    * order) and keep the first `limit`:
    * `Object.entries(counts).map(...).sort((a, b) => b.count - a.count).slice(0, limit)`. */
  function RankChapters(rows: seq<Mistake>, limit: nat): seq<ChapterCount> {
    Take(SortDesc(ChapterTally(ChapterPairs(rows)), ChapterWeight), limit)
  }

  /** What a chapter ranking holds. */
  ghost predicate RankingOf(r: seq<ChapterCount>, rows: seq<Mistake>, limit: nat) {
    && |r| <= limit
    && NonIncreasing(r, ChapterWeight)
    && (forall i, j :: 0 <= i < j < |r| ==> r[i].chapter != r[j].chapter)
    && (forall i :: 0 <= i < |r| ==>
          && r[i].chapter in ChapterNames(rows)
          && r[i].count == multiset(ChapterNames(rows))[r[i].chapter]
          && r[i].subject == FirstSubject(ChapterPairs(rows), r[i].chapter))
    // every chapter left out has no more mistakes than any chapter kept
    && (forall c :: c in ChapterNames(rows) && (forall i :: 0 <= i < |r| ==> r[i].chapter != c) ==>
          forall i :: 0 <= i < |r| ==> multiset(ChapterNames(rows))[c] <= r[i].count)
    // fewer than `limit` entries only when every chapter is listed
    && (|r| < limit ==> forall c :: c in ChapterNames(rows) ==> exists i :: 0 <= i < |r| && r[i].chapter == c)
  }

  lemma ChapterNamesArePairs(rows: seq<Mistake>)
    ensures Chapters(ChapterPairs(rows)) == ChapterNames(rows)
  {
  }

  /** The ranking lists distinct chapters, largest count first, each with the number
    * of rows of that chapter and the subject of the first such row; the chapters it
    * leaves out have no larger counts than those it keeps. */
  lemma RankChaptersMeaning(rows: seq<Mistake>, limit: nat)
    ensures RankingOf(RankChapters(rows, limit), rows, limit)
  {
    SortDescSorted(ChapterTally(ChapterPairs(rows)), ChapterWeight);
    RankedEntries(rows, limit);
    RankedDistinct(rows, limit);
    RankedLeftOut(rows, limit);
    RankedShortIsAll(rows, limit);
  }

  lemma RankedEntries(rows: seq<Mistake>, limit: nat)
    ensures var r := RankChapters(rows, limit);
      forall i :: 0 <= i < |r| ==>
        && r[i].chapter in ChapterNames(rows)
        && r[i].count == multiset(ChapterNames(rows))[r[i].chapter]
        && r[i].subject == FirstSubject(ChapterPairs(rows), r[i].chapter)
  {
    var t := ChapterTally(ChapterPairs(rows));
    var r := RankChapters(rows, limit);
    TallyFacts(rows);
    SortDescSorted(t, ChapterWeight);
    forall i | 0 <= i < |r| ensures r[i] in t {
      assert r[i] in multiset(SortDesc(t, ChapterWeight));
    }
  }

  lemma RankedDistinct(rows: seq<Mistake>, limit: nat)
    ensures var r := RankChapters(rows, limit);
      forall i, j :: 0 <= i < j < |r| ==> r[i].chapter != r[j].chapter
  {
    var t := ChapterTally(ChapterPairs(rows));
    var sorted := SortDesc(t, ChapterWeight);
    var r := RankChapters(rows, limit);
    TallyFacts(rows);
    SortDescSorted(t, ChapterWeight);
    forall i, j | 0 <= i < j < |r| ensures r[i].chapter != r[j].chapter {
      PermutationKeepsChaptersDistinct(t, sorted, i, j);
    }
  }

  lemma RankedLeftOut(rows: seq<Mistake>, limit: nat)
    ensures var r := RankChapters(rows, limit);
      forall c :: c in ChapterNames(rows) && (forall i :: 0 <= i < |r| ==> r[i].chapter != c) ==>
        forall i :: 0 <= i < |r| ==> multiset(ChapterNames(rows))[c] <= r[i].count
  {
    var t := ChapterTally(ChapterPairs(rows));
    var sorted := SortDesc(t, ChapterWeight);
    var r := RankChapters(rows, limit);
    TallyFacts(rows);
    SortDescSorted(t, ChapterWeight);
    LeftOutBound(t, sorted, r, ChapterNames(rows));
  }

  /** A prefix of a list sorted by count, where each entry counts its chapter's
    * occurrences in `names`: a chapter of `names` not in the prefix has no larger
    * count than any entry of it. */
  lemma LeftOutBound(t: seq<ChapterCount>, sorted: seq<ChapterCount>, r: seq<ChapterCount>, names: seq<string>)
    requires multiset(sorted) == multiset(t) && NonIncreasing(sorted, ChapterWeight)
    requires |r| <= |sorted| && r == sorted[..|r|]
    requires forall c :: c in names ==> c in EntryChapters(t)
    requires forall e :: e in t ==> e.count == multiset(names)[e.chapter]
    ensures forall c :: c in names && (forall i :: 0 <= i < |r| ==> r[i].chapter != c) ==>
      forall i :: 0 <= i < |r| ==> multiset(names)[c] <= r[i].count
  {
    forall c | c in names && (forall i :: 0 <= i < |r| ==> r[i].chapter != c)
      ensures forall i :: 0 <= i < |r| ==> multiset(names)[c] <= r[i].count
    {
      var e := LeftOutNotLarger(t, sorted, |r|, c);
    }
  }

  /** In a list sorted by count, an entry for a chapter that is not among the first
    * `n` counts no more than any of them. */
  lemma LeftOutNotLarger(t: seq<ChapterCount>, sorted: seq<ChapterCount>, n: nat, c: string)
    returns (e: ChapterCount)
    requires multiset(sorted) == multiset(t) && NonIncreasing(sorted, ChapterWeight)
    requires n <= |sorted| && c in EntryChapters(t)
    requires forall i :: 0 <= i < n ==> sorted[i].chapter != c
    ensures e in t && e.chapter == c
    ensures forall i :: 0 <= i < n ==> e.count <= sorted[i].count
  {
    var m := SortedPosition(t, sorted, c);
    e := sorted[m];
    assert m >= n;
    forall i | 0 <= i < n ensures e.count <= sorted[i].count {
      assert ChapterWeight(sorted[i]) >= ChapterWeight(sorted[m]);
    }
  }

  lemma RankedShortIsAll(rows: seq<Mistake>, limit: nat)
    ensures var r := RankChapters(rows, limit);
      |r| < limit ==> forall c :: c in ChapterNames(rows) ==> exists i :: 0 <= i < |r| && r[i].chapter == c
  {
    var names := ChapterNames(rows);
    var t := ChapterTally(ChapterPairs(rows));
    var sorted := SortDesc(t, ChapterWeight);
    var r := RankChapters(rows, limit);
    TallyFacts(rows);
    SortDescSorted(t, ChapterWeight);
    if |r| < limit {
      forall c | c in names ensures exists i :: 0 <= i < |r| && r[i].chapter == c {
        assert c in EntryChapters(t);
        var m := SortedPosition(t, sorted, c);
        assert r[m].chapter == c;
      }
    }
  }

  /** Chapters with equal counts keep the order in which they first appear in the rows. */
  lemma RankChaptersTies(rows: seq<Mistake>, limit: nat, c: int)
    ensures var kept := Filter(RankChapters(rows, limit), HasWeight(ChapterWeight, c));
      var all := Filter(ChapterTally(ChapterPairs(rows)), HasWeight(ChapterWeight, c));
      |kept| <= |all| && kept == all[..|kept|]
  {
    TakeStable(ChapterTally(ChapterPairs(rows)), ChapterWeight, c, limit);
  }

  /** The sum of the counts of a chapter list. */
  function CountSum(t: seq<ChapterCount>): nat {
    if t == [] then 0 else t[0].count + CountSum(t[1..])
  }

  /** The counts of a ranking add up to at most the number of rows ranked. */
  lemma RankChaptersTotal(rows: seq<Mistake>, limit: nat)
    ensures CountSum(RankChapters(rows, limit)) <= |rows|
  {
    var ps := ChapterPairs(rows);
    var t := ChapterTally(ps);
    var sorted := SortDesc(t, ChapterWeight);
    CountSumSort(t);
    CountSumPrefix(sorted, |Take(sorted, limit)|);
    CountSumProjects(t);
    ChapterTallyProjects(ps);
    TallyTotal(Chapters(ps));
  }

  lemma {:induction false} CountSumInsert(x: ChapterCount, t: seq<ChapterCount>)
    ensures CountSum(Insert(x, t, ChapterWeight)) == x.count + CountSum(t)
  {
    if t != [] && ChapterWeight(x) < ChapterWeight(t[0]) {
      CountSumInsert(x, t[1..]);
      var r := Insert(x, t, ChapterWeight);
      assert r[0] == t[0] && r[1..] == Insert(x, t[1..], ChapterWeight);
    } else {
      var r := Insert(x, t, ChapterWeight);
      assert r[0] == x && r[1..] == t;
    }
  }

  lemma {:induction false} CountSumSort(t: seq<ChapterCount>)
    ensures CountSum(SortDesc(t, ChapterWeight)) == CountSum(t)
  {
    if t != [] {
      CountSumSort(t[1..]);
      CountSumInsert(t[0], SortDesc(t[1..], ChapterWeight));
    }
  }

  lemma {:induction false} CountSumPrefix(t: seq<ChapterCount>, k: nat)
    requires k <= |t|
    ensures CountSum(t[..k]) <= CountSum(t)
  {
    if k > 0 {
      CountSumPrefix(t[1..], k - 1);
      assert t[..k][1..] == t[1..][..k - 1];
    }
  }

  lemma {:induction false} CountSumProjects(t: seq<ChapterCount>)
    ensures CountSum(t) == Total(AsNameCounts(t))
  {
    if t != [] {
      CountSumProjects(t[1..]);
      assert AsNameCounts(t)[1..] == AsNameCounts(t[1..]);
    }
  }

  /** What the chapter tally of the rows holds, entry by entry. */
  lemma TallyFacts(rows: seq<Mistake>)
    ensures var t := ChapterTally(ChapterPairs(rows));
      && NoDuplicates(EntryChapters(t))
      && (forall c :: c in ChapterNames(rows) <==> c in EntryChapters(t))
      && (forall e :: e in t ==>
            && e.chapter in ChapterNames(rows)
            && e.count == multiset(ChapterNames(rows))[e.chapter]
            && e.subject == FirstSubject(ChapterPairs(rows), e.chapter))
  {
    var ps := ChapterPairs(rows);
    var names := ChapterNames(rows);
    var t := ChapterTally(ps);
    ChapterNamesArePairs(rows);
    ChapterTallyProjects(ps);
    ChapterTallySubjects(ps);
    TallyCounts(names);
    DistinctMeaning(names);
    var nc := AsNameCounts(t);
    assert EntryChapters(t) == Names(nc) == Distinct(names);
    forall e | e in t
      ensures e.count == multiset(names)[e.chapter]
    {
      var k :| 0 <= k < |t| && t[k] == e;
      assert nc[k].name == e.chapter && nc[k].count == e.count;
    }
  }

  /** Where a chapter of the rows sits in the sorted tally. */
  lemma SortedPosition(t: seq<ChapterCount>, sorted: seq<ChapterCount>, c: string) returns (m: nat)
    requires multiset(sorted) == multiset(t) && c in EntryChapters(t)
    ensures m < |sorted| && sorted[m].chapter == c && sorted[m] in t
  {
    var k :| 0 <= k < |t| && EntryChapters(t)[k] == c;
    assert t[k] in multiset(sorted);
    m :| 0 <= m < |sorted| && sorted[m] == t[k];
  }

  /** The chapter names of a list of chapter counts. */
  function EntryChapters(t: seq<ChapterCount>): (r: seq<string>)
    ensures |r| == |t| && forall k :: 0 <= k < |t| ==> r[k] == t[k].chapter
  {
    seq(|t|, k requires 0 <= k < |t| => t[k].chapter)
  }

  /** In a list whose chapters are pairwise different, no entry occurs twice. */
  lemma {:induction false} OccursOnce(t: seq<ChapterCount>, e: ChapterCount)
    requires NoDuplicates(EntryChapters(t))
    ensures multiset(t)[e] <= 1
  {
    if t != [] {
      var tail := t[1..];
      assert EntryChapters(tail) == EntryChapters(t)[1..];
      OccursOnce(tail, e);
      assert t == [t[0]] + tail;
      if t[0] == e {
        forall k | 0 <= k < |tail| ensures tail[k] != e {
          assert EntryChapters(t)[0] != EntryChapters(t)[k + 1];
        }
        assert e !in tail;
      }
    }
  }

  /** A permutation of a list whose chapters are pairwise different has pairwise
    * different chapters too. */
  lemma PermutationKeepsChaptersDistinct(t: seq<ChapterCount>, u: seq<ChapterCount>, i: nat, j: nat)
    requires multiset(u) == multiset(t) && NoDuplicates(EntryChapters(t))
    requires i < j < |u|
    ensures u[i].chapter != u[j].chapter
  {
    if u[i] == u[j] {
      TwoOccurrences(u, i, j);
      OccursOnce(t, u[i]);
    } else {
      assert u[i] in multiset(t) && u[j] in multiset(t);
      var a :| 0 <= a < |t| && t[a] == u[i];
      var b :| 0 <= b < |t| && t[b] == u[j];
      assert EntryChapters(t)[a] == t[a].chapter && EntryChapters(t)[b] == t[b].chapter;
    }
  }

  /** Equal entries at two positions occur at least twice. */
  lemma TwoOccurrences<T>(u: seq<T>, i: nat, j: nat)
    requires i < j < |u| && u[i] == u[j]
    ensures multiset(u)[u[i]] >= 2
  {
    var a, b := u[..j], u[j..];
    assert u == a + b;
    assert a[i] == u[i] && b[0] == u[i];
    assert multiset(a)[u[i]] >= 1 && multiset(b)[u[i]] >= 1;
  }
}
