/** The history page: all mistakes newest first, filtered by subject, type, review
  * status and a search text, twenty to a page. */
module History {
  import opened Wrappers
  import opened Seqs
  import opened Text
  import opened Ranking
  import opened Mistakes

  const PER_PAGE: nat := 20
  const REVIEWED: string := "reviewed"
  const UNREVIEWED: string := "unreviewed"
  /** The length of the notes preview. */
  const PREVIEW_LENGTH: nat := 100

  /** The four filter inputs; the empty string means "all". */
  datatype Filters = Filters(subject: string, mistakeType: string, status: string, search: string)

  /** The filter the query builder appends for each input in use. */
  datatype Condition =
    | SubjectIs(subject: string)
    | TypeIs(mistakeType: string)
    | ReviewedIs(reviewed: bool)
      /** `chapter.ilike.%text%,notes.ilike.%text%`: the text occurs in the chapter or
        * in the notes, ignoring case. */
    | Mentions(text: string)

  /** Case-insensitive substring test, the model of `ilike '%text%'`. */
  predicate ILikeContains(s: string, text: string) {
    Contains(Lower(s), Lower(text))
  }

  predicate Holds(m: Mistake, c: Condition) {
    match c
    case SubjectIs(s) => m.subject == s
    case TypeIs(t) => m.mistakeType == t
    case ReviewedIs(b) => m.isReviewed == b
    case Mentions(text) => ILikeContains(m.chapter, text) || (m.notes.Some? && ILikeContains(m.notes.value, text))
  }

  predicate Satisfies(m: Mistake, conds: seq<Condition>) {
    forall k :: 0 <= k < |conds| ==> Holds(m, conds[k])
  }

  /** What the filters ask for, stated directly. */
  predicate Matches(m: Mistake, f: Filters) {
    && (f.subject != "" ==> m.subject == f.subject)
    && (f.mistakeType != "" ==> m.mistakeType == f.mistakeType)
    && (f.status == REVIEWED ==> m.isReviewed)
    && (f.status == UNREVIEWED ==> !m.isReviewed)
    && (f.search != "" ==>
          ILikeContains(m.chapter, f.search) || (m.notes.Some? && ILikeContains(m.notes.value, f.search)))
  }

  /** The search text is pasted into the PostgREST `or` filter string unescaped, so a
    * comma or a parenthesis in it splits or nests that string and the request is
    * refused. */
  predicate BreaksQuery(search: string) {
    ',' in search || '(' in search || ')' in search
  }

  /** The query builder: one `if` per filter, each narrowing the query further. */
  method BuildQuery(f: Filters) returns (conds: seq<Condition>)
    ensures forall m :: Satisfies(m, conds) <==> Matches(m, f)
  {
    conds := [];
    if f.subject != "" {
      conds := conds + [SubjectIs(f.subject)];
    }
    if f.mistakeType != "" {
      conds := conds + [TypeIs(f.mistakeType)];
    }
    if f.status == REVIEWED {
      conds := conds + [ReviewedIs(true)];
    }
    if f.status == UNREVIEWED {
      conds := conds + [ReviewedIs(false)];
    }
    if f.search != "" {
      conds := conds + [Mentions(f.search)];
    }
    forall m ensures Satisfies(m, conds) <==> Matches(m, f) {
      QueryMeaning(m, f, conds);
    }
  }

  /** Each condition the builder can append holds exactly when its filter does. */
  lemma QueryMeaning(m: Mistake, f: Filters, conds: seq<Condition>)
    requires forall k :: 0 <= k < |conds| ==>
      (conds[k] in [SubjectIs(f.subject), TypeIs(f.mistakeType), ReviewedIs(true), ReviewedIs(false), Mentions(f.search)])
    requires f.subject != "" <==> SubjectIs(f.subject) in conds
    requires f.mistakeType != "" <==> TypeIs(f.mistakeType) in conds
    requires f.status == REVIEWED <==> ReviewedIs(true) in conds
    requires f.status == UNREVIEWED <==> ReviewedIs(false) in conds
    requires f.search != "" <==> Mentions(f.search) in conds
    ensures Satisfies(m, conds) <==> Matches(m, f)
  {
  }

  function MatchesFn(f: Filters): Mistake -> bool {
    (m: Mistake) => Matches(m, f)
  }

  function SatisfiesFn(conds: seq<Condition>): Mistake -> bool {
    (m: Mistake) => Satisfies(m, conds)
  }

  /** The matching rows newest first: what the query counts and pages through. */
  function Ordered(rows: seq<Mistake>, f: Filters): seq<Mistake> {
    NewestFirst(Filter(rows, MatchesFn(f)))
  }

  /** `.range(page * perPage, (page + 1) * perPage - 1)`: both ends inclusive. */
  function RangeOf(page: nat): (int, int) {
    (page * PER_PAGE, (page + 1) * PER_PAGE - 1)
  }

  /** A page asks for exactly twenty rows, starting where the previous page ended. */
  lemma RangeFacts(page: nat)
    ensures RangeOf(page).1 - RangeOf(page).0 + 1 == PER_PAGE
    ensures RangeOf(page).0 == page * PER_PAGE
    ensures RangeOf(page + 1).0 == RangeOf(page).1 + 1
  {
  }

  /** The rows of one page: the requested range, cut short at the end of the results. */
  function PageOf(rows: seq<Mistake>, f: Filters, page: nat): seq<Mistake> {
    var all := Ordered(rows, f);
    var (lo, hi) := RangeOf(page);
    if lo >= |all| then [] else all[lo..if hi + 1 <= |all| then hi + 1 else |all|]
  }

  /** Page `p` holds the matching rows `20p` to `20p + 19` in newest-first order, as
    * many of them as exist. */
  lemma PageMeaning(rows: seq<Mistake>, f: Filters, page: nat)
    ensures var all, r := Ordered(rows, f), PageOf(rows, f, page);
      && |r| == (if |all| <= page * PER_PAGE then 0
                 else if |all| - page * PER_PAGE < PER_PAGE then |all| - page * PER_PAGE else PER_PAGE)
      && forall j :: 0 <= j < |r| ==> r[j] == all[page * PER_PAGE + j]
  {
  }

  /** Every row on a page matches the filters, and the page runs newest first. */
  lemma PageMatches(rows: seq<Mistake>, f: Filters, page: nat)
    ensures var r := PageOf(rows, f, page);
      && (forall j :: 0 <= j < |r| ==> Matches(r[j], f))
      && NonIncreasing(r, CreatedAt)
  {
    var matching := Filter(rows, MatchesFn(f));
    var all := Ordered(rows, f);
    SortDescSorted(matching, CreatedAt);
    FilterMembers(rows, MatchesFn(f));
    PageMeaning(rows, f, page);
    var r := PageOf(rows, f, page);
    forall j | 0 <= j < |r| ensures Matches(r[j], f) {
      var x := all[page * PER_PAGE + j];
      assert x in multiset(matching);
      var k :| 0 <= k < |matching| && matching[k] == x;
    }
  }

  /** The status filter alone: "reviewed" keeps the reviewed rows, "unreviewed" the
    * others, and "" keeps every row. */
  lemma StatusFilter(rows: seq<Mistake>, status: string)
    ensures var f := Filters("", "", status, "");
      && (status == REVIEWED ==> forall k :: 0 <= k < |rows| ==> (Matches(rows[k], f) <==> rows[k].isReviewed))
      && (status == UNREVIEWED ==> forall k :: 0 <= k < |rows| ==> (Matches(rows[k], f) <==> !rows[k].isReviewed))
      && (status == "" ==> Filter(rows, MatchesFn(f)) == rows)
  {
    if status == "" {
      FilterKeepsAll(rows, MatchesFn(Filters("", "", status, "")));
    }
  }

  /** `Math.ceil(total / perPage)`. */
  function TotalPages(total: nat): nat {
    (total + PER_PAGE - 1) / PER_PAGE
  }

  /** Enough pages for every row and no empty last page. */
  lemma TotalPagesFacts(total: nat)
    ensures total == 0 ==> TotalPages(total) == 0
    ensures total > 0 ==> (TotalPages(total) - 1) * PER_PAGE < total <= TotalPages(total) * PER_PAGE
  {
  }

  /** The page buttons appear only when there is more than one page, that is when more
    * than twenty rows match. */
  predicate ShowsPager(total: nat) {
    TotalPages(total) > 1
  }

  lemma PagerMeaning(total: nat)
    ensures ShowsPager(total) <==> total > PER_PAGE
  {
    TotalPagesFacts(total);
  }

  /** `notes.slice(0, 100)`. */
  function Preview(notes: string): (r: string)
    ensures |r| <= PREVIEW_LENGTH && |r| <= |notes| && r == notes[..|r|]
    ensures |notes| >= PREVIEW_LENGTH ==> |r| == PREVIEW_LENGTH
    ensures |notes| < PREVIEW_LENGTH ==> r == notes
  {
    Take(notes, PREVIEW_LENGTH)
  }

  /** The history page's state. */
  class HistoryView {
    /** The `mistakes` table as the page sees it. */
    var store: seq<Mistake>
    const signedIn: bool
    var mistakes: seq<Mistake>
    var total: nat
    var page: nat
    var filterSubject: string
    var filterType: string
    var filterStatus: string
    var search: string

    constructor(store: seq<Mistake>, signedIn: bool)
      ensures this.store == store && this.signedIn == signedIn
      ensures mistakes == [] && total == 0 && page == 0
      ensures filterSubject == "" && filterType == "" && filterStatus == "" && search == ""
    {
      this.store := store;
      this.signedIn := signedIn;
      mistakes, total, page := [], 0, 0;
      filterSubject, filterType, filterStatus, search := "", "", "", "";
    }

    function CurrentFilters(): Filters
      reads this
    {
      Filters(filterSubject, filterType, filterStatus, search)
    }

    /** Run the query for the current page and filters. A refused request returns no
      * data and no count, which the page shows as an empty page and a total of 0. */
    method Fetch()
      modifies this`mistakes, this`total
      ensures signedIn && BreaksQuery(search) ==> mistakes == [] && total == 0
      ensures signedIn && !BreaksQuery(search) ==> mistakes == PageOf(store, CurrentFilters(), page)
      ensures signedIn && !BreaksQuery(search) ==> total == |Filter(store, MatchesFn(CurrentFilters()))|
      ensures !signedIn ==> mistakes == old(mistakes) && total == old(total)
    {
      if signedIn && BreaksQuery(search) {
        mistakes, total := [], 0;
      } else if signedIn {
        var f := CurrentFilters();
        var conds := BuildQuery(f);
        var matching := Filter(store, SatisfiesFn(conds));
        FilterSame(store, SatisfiesFn(conds), MatchesFn(f));
        var all := NewestFirst(matching);
        var (lo, hi) := RangeOf(page);
        mistakes := if lo >= |all| then [] else all[lo..if hi + 1 <= |all| then hi + 1 else |all|];
        total := |matching|;
      }
    }

    /** Typing in the search box goes back to the first page. */
    method SetSearch(text: string)
      modifies this`search, this`page
      ensures search == text && page == 0
    {
      search := text;
      page := 0;
    }

    method SetSubject(subject: string)
      modifies this`filterSubject, this`page
      ensures filterSubject == subject && page == 0
    {
      filterSubject := subject;
      page := 0;
    }

    method SetType(mistakeType: string)
      modifies this`filterType, this`page
      ensures filterType == mistakeType && page == 0
    {
      filterType := mistakeType;
      page := 0;
    }

    method SetStatus(status: string)
      modifies this`filterStatus, this`page
      ensures filterStatus == status && page == 0
    {
      filterStatus := status;
      page := 0;
    }

    method GoToPage(p: nat)
      modifies this`page
      ensures page == p
    {
      page := p;
    }

    /** "Mark Reviewed": mark the row reviewed now and run the query again. */
    method MarkReviewed(id: string, now: int)
      modifies this`store, this`mistakes, this`total
      ensures store == Mistakes.MarkReviewed(old(store), id, now)
      ensures signedIn && BreaksQuery(search) ==> mistakes == [] && total == 0
      ensures signedIn && !BreaksQuery(search) ==> mistakes == PageOf(store, CurrentFilters(), page)
      ensures signedIn && !BreaksQuery(search) ==> total == |Filter(store, MatchesFn(CurrentFilters()))|
      ensures !signedIn ==> mistakes == old(mistakes) && total == old(total)
    {
      store := Mistakes.MarkReviewed(store, id, now);
      Fetch();
    }
  }
}
