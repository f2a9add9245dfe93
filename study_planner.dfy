/** The study planner: today's tasks and the backlog, the suggested chapters, the
  * completion percentage, and the handlers that add, toggle and delete tasks. */
module StudyPlanner {
  import opened Seqs
  import opened Text
  import opened Counting
  import opened Ranking
  import opened Mistakes
  import Constants
  import Analytics

  /** The number of suggested chapters. */
  const SUGGEST_LIMIT: nat := 3
  /** The estimate a new task starts with, in minutes. */
  const DEFAULT_MINUTES: int := 30

  /** A row of the `study_tasks` table; `date` is a calendar day number. */
  datatype StudyTask = StudyTask(id: string, subject: string, topic: string, minutes: int, isDone: bool, date: int)

  function IsToday(today: int): StudyTask -> bool {
    (t: StudyTask) => t.date == today
  }

  function IsPending(today: int): StudyTask -> bool {
    (t: StudyTask) => t.date < today && !t.isDone
  }

  /** `data.filter((t) => t.date === today)`. */
  function TodayTasks(store: seq<StudyTask>, today: int): seq<StudyTask> {
    Filter(store, IsToday(today))
  }

  /** `data.filter((t) => t.date < today && !t.is_done)`. */
  function Backlog(store: seq<StudyTask>, today: int): seq<StudyTask> {
    Filter(store, IsPending(today))
  }

  /** Today's list holds exactly the stored tasks dated today; the backlog exactly the
    * unfinished tasks dated earlier. So the two never share a task, and a task dated
    * later, or finished on an earlier day, is in neither. */
  lemma TaskListsMeaning(store: seq<StudyTask>, today: int)
    ensures forall t :: t in TodayTasks(store, today) <==> t in store && t.date == today
    ensures forall t :: t in Backlog(store, today) <==> t in store && t.date < today && !t.isDone
    ensures forall t :: !(t in TodayTasks(store, today) && t in Backlog(store, today))
    ensures forall t :: t in store && (t.date > today || (t.date < today && t.isDone)) ==>
      t !in TodayTasks(store, today) && t !in Backlog(store, today)
  {
    FilterMembers(store, IsToday(today));
    FilterMembers(store, IsPending(today));
    forall t | t in store ensures t.date == today ==> t in TodayTasks(store, today) {
      var k :| 0 <= k < |store| && store[k] == t;
    }
    forall t | t in store ensures t.date < today && !t.isDone ==> t in Backlog(store, today) {
      var k :| 0 <= k < |store| && store[k] == t;
    }
    forall t | t in TodayTasks(store, today) ensures t in store && t.date == today {
      var k :| 0 <= k < |TodayTasks(store, today)| && TodayTasks(store, today)[k] == t;
    }
    forall t | t in Backlog(store, today) ensures t in store && t.date < today && !t.isDone {
      var k :| 0 <= k < |Backlog(store, today)| && Backlog(store, today)[k] == t;
    }
  }

  /** The chapters with the most mistakes, reviewed or not. */
  function Suggestions(mistakes: seq<Mistake>): seq<ChapterCount> {
    RankChapters(mistakes, SUGGEST_LIMIT)
  }

  /** The suggestions are at most three distinct chapters, largest count first, each
    * counting all its mistakes (reviewed ones too) and carrying the subject of the
    * first; their counts add up to at most the number of mistakes. */
  lemma SuggestionsMeaning(mistakes: seq<Mistake>)
    ensures RankingOf(Suggestions(mistakes), mistakes, SUGGEST_LIMIT)
    ensures CountSum(Suggestions(mistakes)) <= |mistakes|
  {
    RankChaptersMeaning(mistakes, SUGGEST_LIMIT);
    RankChaptersTotal(mistakes, SUGGEST_LIMIT);
  }

  /** When no mistake has been reviewed, the suggestions are the first three weak
    * areas of the analytics page; otherwise the two rank different sets of rows. */
  lemma SuggestionsAreTopWeakAreas(mistakes: seq<Mistake>)
    requires forall k :: 0 <= k < |mistakes| ==> !mistakes[k].isReviewed
    ensures Suggestions(mistakes) == Take(Analytics.WeakAreas(mistakes), SUGGEST_LIMIT)
  {
    FilterKeepsAll(mistakes, IsUnreviewed);
    var sorted := SortDesc(ChapterTally(ChapterPairs(mistakes)), ChapterWeight);
    assert Take(sorted, 5)[..|Take(Take(sorted, 5), 3)|] == Take(sorted, 3);
  }

  /** The `forEach` pass over the mistakes and the ranking that follows it. */
  method SuggestChapters(mistakes: seq<Mistake>) returns (suggested: seq<ChapterCount>)
    ensures suggested == Suggestions(mistakes)
  {
    var counts: seq<ChapterCount> := [];
    for i := 0 to |mistakes|
      invariant counts == ChapterTally(ChapterPairs(mistakes[..i]))
    {
      var ps := ChapterPairs(mistakes[..i + 1]);
      assert ps[..|ps| - 1] == ChapterPairs(mistakes[..i]);
      counts := BumpChapter(counts, mistakes[i].chapter, mistakes[i].subject);
    }
    assert mistakes[..|mistakes|] == mistakes;
    suggested := Take(SortDesc(counts, ChapterWeight), SUGGEST_LIMIT);
  }

  function IsDone(t: StudyTask): bool { t.isDone }

  function DoneCount(tasks: seq<StudyTask>): nat {
    |Filter(tasks, IsDone)|
  }

  /** `Math.round(doneCount / tasks.length * 100)`, or 0 without tasks: the whole
    * percentage nearest to the done share, halves rounded up. */
  function Progress(tasks: seq<StudyTask>): (p: nat)
    ensures tasks == [] ==> p == 0
    ensures tasks != [] ==>
      2 * p * |tasks| <= 200 * DoneCount(tasks) + |tasks| < 2 * p * |tasks| + 2 * |tasks|
  {
    if tasks == [] then 0
    else
      var a, b := 200 * DoneCount(tasks) + |tasks|, 2 * |tasks|;
      var q := a / b;
      assert q * b <= a < q * b + b;
      q
  }

  /** The percentage never exceeds 100. */
  lemma ProgressAtMost100(tasks: seq<StudyTask>)
    ensures Progress(tasks) <= 100
  {
    if tasks != [] {
      var n, p := |tasks|, Progress(tasks);
      assert DoneCount(tasks) <= n;
      assert (2 * p) * n < 202 * n;
      LessByFactor(2 * p, 202, n);
    }
  }

  /** Nothing done reads 0%. */
  lemma ProgressNoneDone(tasks: seq<StudyTask>)
    requires DoneCount(tasks) == 0
    ensures Progress(tasks) == 0
  {
    if tasks != [] {
      var n, p := |tasks|, Progress(tasks);
      assert (2 * p) * n < 2 * n;
      LessByFactor(2 * p, 2, n);
    }
  }

  /** Every task done reads 100%. */
  lemma ProgressAllDone(tasks: seq<StudyTask>)
    requires tasks != [] && forall k :: 0 <= k < |tasks| ==> tasks[k].isDone
    ensures Progress(tasks) == 100
  {
    var n, p := |tasks|, Progress(tasks);
    forall x | x in tasks ensures IsDone(x) {
      var k :| 0 <= k < |tasks| && tasks[k] == x;
    }
    FilterKeepsAll(tasks, IsDone);
    assert 201 * n < (2 * p + 2) * n;
    LessByFactor(201, 2 * p + 2, n);
    ProgressAtMost100(tasks);
  }

  lemma LessByFactor(a: int, b: int, n: int)
    requires n > 0 && a * n < b * n
    ensures a < b
  {
    if a >= b {
      MulMono(b, a, n);
    }
  }

  lemma MulMono(a: int, b: int, n: int)
    requires a <= b && n >= 0
    ensures a * n <= b * n
  {
    assert b * n - a * n == (b - a) * n;
  }

  /** `update({ is_done: done }).eq('id', id)` on the stored tasks. */
  function SetDone(store: seq<StudyTask>, id: string, done: bool): (r: seq<StudyTask>)
    ensures |r| == |store|
  {
    if store == [] then []
    else [if store[0].id == id then store[0].(isDone := done) else store[0]] + SetDone(store[1..], id, done)
  }

  /** Setting the flag changes only the tasks with that id, and only their flag. */
  lemma {:induction false} SetDoneMeaning(store: seq<StudyTask>, id: string, done: bool)
    ensures forall k :: 0 <= k < |store| ==>
      SetDone(store, id, done)[k] == if store[k].id == id then store[k].(isDone := done) else store[k]
  {
    if store != [] {
      SetDoneMeaning(store[1..], id, done);
      forall k | 1 <= k < |store|
        ensures SetDone(store, id, done)[k] == if store[k].id == id then store[k].(isDone := done) else store[k]
      {
        assert SetDone(store, id, done)[k] == SetDone(store[1..], id, done)[k - 1];
      }
    }
  }

  /** Toggling a task and then toggling it back restores the stored tasks. */
  lemma ToggleTwice(store: seq<StudyTask>, id: string, done: bool)
    requires forall k :: 0 <= k < |store| && store[k].id == id ==> store[k].isDone == done
    ensures SetDone(SetDone(store, id, !done), id, !!done) == store
  {
    SetDoneMeaning(store, id, !done);
    SetDoneMeaning(SetDone(store, id, !done), id, done);
  }

  function HasNotTaskId(id: string): StudyTask -> bool {
    (t: StudyTask) => t.id != id
  }

  /** The planner page: the stored tasks it reads through the data store, the lists
    * it shows, and the new-task form. */
  class Planner {
    var store: seq<StudyTask>
    const signedIn: bool
    const today: int
    var tasks: seq<StudyTask>
    var backlog: seq<StudyTask>
    var suggested: seq<ChapterCount>
    var subject: string
    var topic: string
    var minutes: int
    var adding: bool

    /** The page as first rendered, before anything is fetched. */
    constructor(store: seq<StudyTask>, signedIn: bool, today: int)
      ensures this.store == store && this.signedIn == signedIn && this.today == today
      ensures tasks == [] && backlog == [] && suggested == []
      ensures subject == Constants.SUBJECTS[0] && topic == "" && minutes == DEFAULT_MINUTES && !adding
    {
      this.store := store;
      this.signedIn := signedIn;
      this.today := today;
      tasks, backlog, suggested := [], [], [];
      subject, topic, minutes, adding := Constants.SUBJECTS[0], "", DEFAULT_MINUTES, false;
    }

    /** The add button is disabled while adding or when the topic is blank. */
    predicate CanAdd()
      reads this
    {
      !adding && Trim(topic) != ""
    }

    /** Read the stored tasks and split them into today's tasks and the backlog. */
    method FetchTasks()
      modifies this`tasks, this`backlog
      ensures signedIn ==> tasks == TodayTasks(store, today) && backlog == Backlog(store, today)
      ensures !signedIn ==> tasks == old(tasks) && backlog == old(backlog)
    {
      if signedIn {
        tasks := TodayTasks(store, today);
        backlog := Backlog(store, today);
      }
    }

    /** Rank the chapters of the user's mistakes. */
    method FetchSuggested(mistakes: seq<Mistake>)
      modifies this`suggested
      ensures signedIn ==> suggested == Suggestions(mistakes)
      ensures !signedIn ==> suggested == old(suggested)
    {
      if signedIn {
        suggested := SuggestChapters(mistakes);
      }
    }

    /** Store a new task for today with the trimmed topic, clear the form and re-read
      * the tasks; nothing happens when signed out or when the topic is blank. Whether
      * the store accepted the row is `accepted`; the page does not look at it. */
    method AddTask(newId: string, accepted: bool)
      modifies this`store, this`tasks, this`backlog, this`topic, this`minutes, this`adding
      ensures !signedIn || Trim(old(topic)) == "" ==>
        store == old(store) && tasks == old(tasks) && backlog == old(backlog) &&
        topic == old(topic) && minutes == old(minutes) && adding == old(adding)
      ensures signedIn && Trim(old(topic)) != "" ==>
        && store == old(store) + (if accepted then [StudyTask(newId, old(subject), Trim(old(topic)), old(minutes), false, today)] else [])
        && topic == "" && minutes == DEFAULT_MINUTES && !adding
        && tasks == TodayTasks(store, today) && backlog == Backlog(store, today)
    {
      var trimmed := Trim(topic);
      if !signedIn || trimmed == "" {
        return;
      }
      adding := true;
      if accepted {
        store := store + [StudyTask(newId, subject, trimmed, minutes, false, today)];
      }
      topic := "";
      minutes := DEFAULT_MINUTES;
      FetchTasks();
      adding := false;
    }

    /** Flip the done flag of the task with this id, given its current value, and
      * re-read the tasks. */
    method ToggleDone(id: string, done: bool, accepted: bool)
      modifies this`store, this`tasks, this`backlog
      ensures store == if accepted then SetDone(old(store), id, !done) else old(store)
      ensures signedIn ==> tasks == TodayTasks(store, today) && backlog == Backlog(store, today)
      ensures !signedIn ==> tasks == old(tasks) && backlog == old(backlog)
    {
      if accepted {
        store := SetDone(store, id, !done);
      }
      FetchTasks();
    }

    /** Delete the task with this id and re-read the tasks. */
    method DeleteTask(id: string, accepted: bool)
      modifies this`store, this`tasks, this`backlog
      ensures store == if accepted then Filter(old(store), HasNotTaskId(id)) else old(store)
      ensures signedIn ==> tasks == TodayTasks(store, today) && backlog == Backlog(store, today)
      ensures !signedIn ==> tasks == old(tasks) && backlog == old(backlog)
    {
      if accepted {
        store := Filter(store, HasNotTaskId(id));
      }
      FetchTasks();
    }
  }

  /** A task added today shows up in today's list and never in the backlog. */
  lemma AddedTaskIsToday(store: seq<StudyTask>, t: StudyTask, today: int)
    requires t.date == today
    ensures TodayTasks(store + [t], today) == TodayTasks(store, today) + [t]
    ensures Backlog(store + [t], today) == Backlog(store, today)
  {
    FilterConcat(store, [t], IsToday(today));
    FilterConcat(store, [t], IsPending(today));
    assert [t] == [t] + [];
  }

  /** After a delete no task with that id is listed, and the others keep their order. */
  lemma DeletedTaskGone(store: seq<StudyTask>, id: string, today: int)
    ensures forall k :: 0 <= k < |TodayTasks(Filter(store, HasNotTaskId(id)), today)| ==>
      TodayTasks(Filter(store, HasNotTaskId(id)), today)[k].id != id
    ensures TodayTasks(Filter(store, HasNotTaskId(id)), today) == Filter(TodayTasks(store, today), HasNotTaskId(id))
  {
    var rest := Filter(store, HasNotTaskId(id));
    FilterMembers(store, HasNotTaskId(id));
    FilterMembers(rest, IsToday(today));
    FiltersCommute(store, HasNotTaskId(id), IsToday(today));
    forall k | 0 <= k < |TodayTasks(rest, today)| ensures TodayTasks(rest, today)[k].id != id {
      var t := TodayTasks(rest, today)[k];
      var j :| 0 <= j < |rest| && rest[j] == t;
    }
  }

  lemma {:induction false} FiltersCommute(s: seq<StudyTask>, p: StudyTask -> bool, q: StudyTask -> bool)
    ensures Filter(Filter(s, p), q) == Filter(Filter(s, q), p)
  {
    if s != [] {
      FiltersCommute(s[1..], p, q);
      FilterCons(s[0], s[1..], p);
      FilterCons(s[0], s[1..], q);
      assert s == [s[0]] + s[1..];
      if p(s[0]) {
        FilterCons(s[0], Filter(s[1..], p), q);
      }
      if q(s[0]) {
        FilterCons(s[0], Filter(s[1..], q), p);
      }
    }
  }
}
