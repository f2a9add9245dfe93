/** The "Log a Mistake" form: a subject, a chapter picked from that subject's list
  * through a search box, a mistake type, a difficulty and optional notes. */
module LogMistake {
  import opened Wrappers
  import opened Seqs
  import opened Text
  import opened Constants

  /** The row the form inserts; the store adds the id, the review fields and the
    * creation time. */
  datatype NewMistake = NewMistake(
    subject: string, chapter: string, mistakeType: string, difficulty: string, notes: Option<string>)

  function MentionsQuery(query: string): string -> bool {
    (c: string) => Contains(Lower(c), Lower(query))
  }

  /** The chapters offered under the search box: those the chapter table lists for the
    * chosen subject whose name contains the typed text, ignoring case, in the table's
    * order. The page uses the fixed table `CHAPTERS`. */
  function Suggestions(table: map<string, seq<string>>, subject: string, query: string): seq<string> {
    if subject != "" && subject in table then Filter(table[subject], MentionsQuery(query)) else []
  }

  /** A chapter is offered exactly when it belongs to the selected subject and contains the
    * text; nothing is offered without a subject that the table lists. */
  lemma SuggestionsMeaning(table: map<string, seq<string>>, subject: string, query: string)
    ensures forall k :: 0 <= k < |Suggestions(table, subject, query)| ==>
      subject in table && Suggestions(table, subject, query)[k] in table[subject]
      && Contains(Lower(Suggestions(table, subject, query)[k]), Lower(query))
    ensures subject != "" && subject in table ==> forall k :: 0 <= k < |table[subject]| ==>
      (Contains(Lower(table[subject][k]), Lower(query)) ==> table[subject][k] in Suggestions(table, subject, query))
    ensures subject == "" || subject !in table ==> Suggestions(table, subject, query) == []
  {
    if subject != "" && subject in table {
      var chapters, p := table[subject], MentionsQuery(query);
      FilterMembers(chapters, p);
      var f := Filter(chapters, p);
      assert Suggestions(table, subject, query) == f;
      forall k | 0 <= k < |f| ensures f[k] in chapters && Contains(Lower(f[k]), Lower(query)) {
        assert p(f[k]);
      }
      forall k | 0 <= k < |chapters| && Contains(Lower(chapters[k]), Lower(query))
        ensures chapters[k] in f
      {
        assert p(chapters[k]);
      }
    } else {
      assert Suggestions(table, subject, query) == [];
    }
  }

  /** An offered chapter belongs to the chosen subject. */
  lemma SuggestionInSubject(table: map<string, seq<string>>, subject: string, query: string, c: string)
    requires c in Suggestions(table, subject, query)
    ensures subject in table && c in table[subject]
  {
    SuggestionsMeaning(table, subject, query);
    var k :| 0 <= k < |Suggestions(table, subject, query)| && Suggestions(table, subject, query)[k] == c;
  }

  /** Before anything is typed the whole chapter list of the subject is offered. */
  lemma EmptyQueryOffersAll(subject: string)
    requires subject in CHAPTERS
    ensures Suggestions(CHAPTERS, subject, "") == CHAPTERS[subject]
  {
    assert subject != "" by {
      ChaptersCoverSubjects();
    }
    forall c | c in CHAPTERS[subject] ensures MentionsQuery("")(c) {
      assert StartsWith(Lower(c), Lower(""));
    }
    FilterKeepsAll(CHAPTERS[subject], MentionsQuery(""));
  }

  /** Empty notes are stored as no notes (`notes || null`). */
  function NotesValue(notes: string): (r: Option<string>)
    ensures r.None? <==> notes == ""
    ensures r.Some? ==> r.value == notes
  {
    if notes == "" then None else Some(notes)
  }

  class LogForm {
    const signedIn: bool
    /** The chapter table the form offers from. */
    const table: map<string, seq<string>>
    var subject: string
    var chapter: string
    var chapterQuery: string
    var showSuggestions: bool
    var mistakeType: string
    var difficulty: string
    var notes: string
    var saving: bool
    var saved: bool
    /** The rows this form has added to the `mistakes` table. */
    var inserted: seq<NewMistake>

    /** A chapter is only ever one picked from the subject's list, and the selects
      * only hold values from their tables. */
    ghost predicate Valid()
      reads this
    {
      && (chapter != "" ==> subject in table && chapter in table[subject])
      && (mistakeType != "" ==> mistakeType in MISTAKE_TYPES)
      && (difficulty != "" ==> difficulty in DIFFICULTIES)
      && forall k :: 0 <= k < |inserted| ==> RowValid(table, inserted[k])
    }

    constructor(signedIn: bool)
      ensures this.signedIn == signedIn && table == CHAPTERS && Valid()
      ensures subject == "" && chapter == "" && chapterQuery == "" && !showSuggestions
      ensures mistakeType == "" && difficulty == "" && notes == ""
      ensures !saving && !saved && inserted == []
    {
      this.signedIn := signedIn;
      table := CHAPTERS;
      subject, chapter, chapterQuery, showSuggestions := "", "", "", false;
      mistakeType, difficulty, notes := "", "", "";
      saving, saved, inserted := false, false, [];
    }

    /** The text shown in the chapter box: the picked chapter, else what was typed. */
    function ChapterText(): string
      reads this
    {
      if chapter != "" then chapter else chapterQuery
    }

    /** The list of suggestions is open. */
    predicate ShowsList()
      reads this
    {
      showSuggestions && |Suggestions(table, subject, chapterQuery)| > 0 && chapter == ""
    }

    /** Choosing a subject forgets the chapter and the typed text. */
    method SelectSubject(s: string)
      requires Valid()
      modifies this`subject, this`chapter, this`chapterQuery
      ensures Valid()
      ensures subject == s && chapter == "" && chapterQuery == ""
    {
      subject, chapter, chapterQuery := s, "", "";
    }

    /** Typing in the chapter box drops any picked chapter and opens the list. */
    method TypeChapter(text: string)
      requires Valid()
      modifies this`chapterQuery, this`chapter, this`showSuggestions
      ensures Valid()
      ensures chapterQuery == text && chapter == "" && showSuggestions
      ensures ChapterText() == text
    {
      chapterQuery, chapter, showSuggestions := text, "", true;
    }

    /** Focusing the chapter box opens the list. */
    method Focus()
      modifies this`showSuggestions
      ensures showSuggestions
    {
      showSuggestions := true;
    }

    /** Leaving the chapter box closes the list (after a short delay on the page). */
    method Blur()
      modifies this`showSuggestions
      ensures !showSuggestions && !ShowsList()
    {
      showSuggestions := false;
    }

    /** Clicking one of the offered chapters. */
    method PickSuggestion(c: string)
      requires Valid()
      requires c in Suggestions(table, subject, chapterQuery)
      modifies this`chapter, this`chapterQuery, this`showSuggestions
      ensures Valid()
      ensures chapter == c && chapterQuery == "" && !showSuggestions
      ensures ChapterText() == c
    {
      SuggestionInSubject(table, subject, chapterQuery, c);
      SetChapter(c);
    }

    /** Take `c` as the chapter and close the list. */
    method SetChapter(c: string)
      requires Valid()
      requires subject in table && c in table[subject]
      modifies this`chapter, this`chapterQuery, this`showSuggestions
      ensures Valid()
      ensures chapter == c && chapterQuery == "" && !showSuggestions
    {
      chapter := c;
      chapterQuery := "";
      showSuggestions := false;
    }

    method SelectType(t: string)
      requires Valid()
      requires t == "" || t in MISTAKE_TYPES
      modifies this`mistakeType
      ensures Valid() && mistakeType == t
    {
      mistakeType := t;
    }

    method SelectDifficulty(d: string)
      requires Valid()
      requires d == "" || d in DIFFICULTIES
      modifies this`difficulty
      ensures Valid() && difficulty == d
    {
      difficulty := d;
    }

    method EditNotes(text: string)
      modifies this`notes
      ensures notes == text
    {
      notes := text;
    }

    /** Every field the save needs is filled in and someone is signed in. */
    predicate Ready()
      reads this
    {
      signedIn && subject != "" && chapter != "" && mistakeType != "" && difficulty != ""
    }

    function Row(): NewMistake
      reads this
    {
      NewMistake(subject, chapter, mistakeType, difficulty, NotesValue(notes))
    }

    /** "Save Mistake": nothing happens unless the form is ready; otherwise the row is
      * inserted, and the confirmation shows only if the store `accepted` it. */
    method Save(accepted: bool)
      requires Valid()
      modifies this`inserted, this`saving, this`saved
      ensures Valid()
      ensures !old(Ready()) ==> inserted == old(inserted) && saved == old(saved) && saving == old(saving)
      ensures old(Ready()) ==> inserted == old(inserted) + (if accepted then [old(Row())] else [])
      ensures old(Ready()) ==> saved == (old(saved) || accepted) && !saving
    {
      if !Ready() {
        return;
      }
      saving := true;
      var row := Row();
      if accepted {
        inserted := inserted + [row];
      }
      saving := false;
      if !accepted {
        return;
      }
      saved := true;
    }

    /** "Log Another": an empty form again. */
    method ResetForm()
      requires Valid()
      modifies this`subject, this`chapter, this`chapterQuery, this`mistakeType, this`difficulty, this`notes, this`saved
      ensures Valid()
      ensures subject == "" && chapter == "" && chapterQuery == ""
      ensures mistakeType == "" && difficulty == "" && notes == "" && !saved
    {
      subject, chapter, chapterQuery := "", "", "";
      mistakeType, difficulty, notes := "", "", "";
      saved := false;
    }
  }

  /** A row whose chapter belongs to its subject and whose type and difficulty come
    * from the tables. */
  ghost predicate RowValid(table: map<string, seq<string>>, r: NewMistake) {
    && r.subject in table && r.chapter in table[r.subject]
    && r.mistakeType in MISTAKE_TYPES && r.difficulty in DIFFICULTIES
    && (r.notes.Some? ==> r.notes.value != "")
  }
}
