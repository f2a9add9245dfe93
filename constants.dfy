/** The fixed tables of subjects, chapters, mistake types and difficulties, and the
  * colour class chosen for a subject. */
module Constants {
  import opened Seqs
  import opened Text

  const SUBJECTS: seq<string> := ["Physics", "Chemistry", "Mathematics"]

  const CHAPTERS: map<string, seq<string>> := map[
    "Physics" := ["Motion", "Laws of Motion", "Work Energy Power", "Gravitation", "Thermodynamics",
                  "Waves", "Electrostatics", "Current Electricity", "Magnetism", "Optics", "Modern Physics"],
    "Chemistry" := ["Atomic Structure", "Chemical Bonding", "Thermodynamics", "Equilibrium", "Redox",
                    "Electrochemistry", "Organic Basics", "Hydrocarbons", "Coordination Compounds"],
    "Mathematics" := ["Algebra", "Trigonometry", "Coordinate Geometry", "Calculus", "Vectors",
                      "Statistics", "Probability", "Matrices"]
  ]

  const MISTAKE_TYPES: seq<string> := [
    "Silly Mistake", "Concept Not Clear", "Formula Forgotten",
    "Misread Question", "Calculation Error", "Time Management"
  ]

  const DIFFICULTIES: seq<string> := ["Easy", "Medium", "Hard"]

  const DEFAULT_CLASS: string := "bg-muted"

  /** The colour class of a subject: `subject-` and the subject's name in lower case
    * for the three known subjects, the muted background for anything else. */
  function SubjectClass(subject: string): (r: string)
    ensures subject in SUBJECTS ==> r == "subject-" + Lower(subject)
    ensures subject !in SUBJECTS ==> r == DEFAULT_CLASS
  {
    match subject
    case "Physics" =>
      assert Lower("Physics") == "physics";
      "subject-physics"
    case "Chemistry" =>
      assert Lower("Chemistry") == "chemistry";
      "subject-chemistry"
    case "Mathematics" =>
      assert Lower("Mathematics") == "mathematics";
      "subject-mathematics"
    case _ => DEFAULT_CLASS
  }

  /** Different subjects get different classes, none of them the default. */
  lemma SubjectClassesDistinct(a: string, b: string)
    requires a in SUBJECTS && b in SUBJECTS && a != b
    ensures SubjectClass(a) != SubjectClass(b)
    ensures SubjectClass(a) != DEFAULT_CLASS
  {
    assert SubjectClass(a)[8] != SubjectClass(b)[8] by {
      assert Lower(a)[0] != Lower(b)[0];
    }
  }

  /** Every subject has a chapter list, and nothing else has one. */
  lemma ChaptersCoverSubjects()
    ensures forall s :: s in CHAPTERS <==> s in SUBJECTS
  {
  }

  /** The mistake types and difficulties are lists of distinct entries. */
  lemma TablesDistinct()
    ensures |MISTAKE_TYPES| == 6 && NoDuplicates(MISTAKE_TYPES)
    ensures |DIFFICULTIES| == 3 && NoDuplicates(DIFFICULTIES)
  {
  }

  /** A chapter name does not determine its subject: "Thermodynamics" belongs to
    * Physics and to Chemistry, so grouping by chapter alone merges the two. */
  lemma ChapterInTwoSubjects()
    ensures "Thermodynamics" in CHAPTERS["Physics"] && "Thermodynamics" in CHAPTERS["Chemistry"]
  {
    assert CHAPTERS["Physics"][4] == "Thermodynamics";
    assert CHAPTERS["Chemistry"][2] == "Thermodynamics";
  }
}
