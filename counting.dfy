/** The counting dictionaries the pages build in a `forEach` pass:
  * `counts[k] = (counts[k] || 0) + 1` over a `Record<string, number>`, and the
  * chapter variant `if (!counts[c]) counts[c] = { subject, count: 0 }; counts[c].count++`.
  * A JavaScript object lists its string keys in insertion order, so a dictionary is
  * modelled as the sequence of its entries in that order. */
module Counting {
  import opened Seqs

  /** One `{ name, count }` entry of `Object.entries(counts)`. */
  datatype NameCount = NameCount(name: string, count: nat)

  /** One `{ chapter, subject, count }` entry of a chapter dictionary. */
  datatype ChapterCount = ChapterCount(chapter: string, subject: string, count: nat)

  function Names(t: seq<NameCount>): (r: seq<string>)
    ensures |r| == |t| && forall i :: 0 <= i < |t| ==> r[i] == t[i].name
  {
    seq(|t|, i requires 0 <= i < |t| => t[i].name)
  }

  function Total(t: seq<NameCount>): nat {
    if t == [] then 0 else t[0].count + Total(t[1..])
  }

  /** `counts[key] = (counts[key] || 0) + 1`. */
  function Bump(t: seq<NameCount>, key: string): seq<NameCount> {
    if t == [] then [NameCount(key, 1)]
    else if t[0].name == key then [NameCount(key, t[0].count + 1)] + t[1..]
    else [t[0]] + Bump(t[1..], key)
  }

  /** The dictionary after the `forEach` pass over `keys`. */
  function Tally(keys: seq<string>): seq<NameCount> {
    if keys == [] then []
    else Bump(Tally(keys[..|keys| - 1]), keys[|keys| - 1])
  }

  /** What the dictionary holds: one entry per distinct key in first-seen order,
    * whose count is the number of times the key occurs. */
  ghost predicate CountsOf(t: seq<NameCount>, keys: seq<string>) {
    Names(t) == Distinct(keys) && CountsMatch(t, keys)
  }

  /** Each entry's count is the number of occurrences of its name. */
  ghost predicate CountsMatch(t: seq<NameCount>, keys: seq<string>) {
    forall i :: 0 <= i < |t| ==> t[i].count == multiset(keys)[t[i].name]
  }

  lemma {:induction false} BumpPresent(t: seq<NameCount>, key: string, j: nat)
    requires j < |t| && t[j].name == key && NoDuplicates(Names(t))
    ensures Bump(t, key) == t[j := NameCount(key, t[j].count + 1)]
  {
    if j > 0 {
      assert Names(t[1..]) == Names(t)[1..];
      BumpPresent(t[1..], key, j - 1);
      assert t[j := NameCount(key, t[j].count + 1)] == [t[0]] + t[1..][j - 1 := NameCount(key, t[j].count + 1)];
    }
  }

  lemma {:induction false} BumpAbsent(t: seq<NameCount>, key: string)
    requires key !in Names(t)
    ensures Bump(t, key) == t + [NameCount(key, 1)]
  {
    if t != [] {
      assert Names(t[1..]) == Names(t)[1..];
      BumpAbsent(t[1..], key);
    }
  }

  lemma {:induction false} BumpTotal(t: seq<NameCount>, key: string)
    ensures Total(Bump(t, key)) == Total(t) + 1
  {
    if t != [] && t[0].name != key {
      BumpTotal(t[1..], key);
    }
  }

  lemma {:induction false} TotalAppend(t: seq<NameCount>, e: NameCount)
    ensures Total(t + [e]) == Total(t) + e.count
  {
    if t != [] {
      assert (t + [e])[1..] == t[1..] + [e];
      TotalAppend(t[1..], e);
    }
  }

  /** Counting a key already in the dictionary keeps the entry names. */
  lemma NamesStepPresent(t: seq<NameCount>, init: seq<string>, x: string, j: nat)
    requires Names(t) == Distinct(init) && j < |t| && t[j].name == x
    ensures Names(t[j := NameCount(x, t[j].count + 1)]) == Distinct(init + [x])
  {
    var keys := init + [x];
    assert keys[..|keys| - 1] == init;
    assert Names(t)[j] == x;
    assert Names(t[j := NameCount(x, t[j].count + 1)]) == Names(t);
  }

  /** A key seen for the first time is appended to the entry names. */
  lemma NamesStepAbsent(t: seq<NameCount>, init: seq<string>, x: string)
    requires Names(t) == Distinct(init) && x !in Distinct(init)
    ensures Names(t + [NameCount(x, 1)]) == Distinct(init + [x])
  {
    var keys := init + [x];
    assert keys[..|keys| - 1] == init;
    assert Names(t + [NameCount(x, 1)]) == Names(t) + [x];
  }

  /** The entries of a dictionary whose names are distinct values have distinct names. */
  lemma NamesApart(t: seq<NameCount>, init: seq<string>)
    requires Names(t) == Distinct(init)
    ensures forall i, k :: 0 <= i < |t| && 0 <= k < |t| && i != k ==> t[i].name != t[k].name
  {
    DistinctMeaning(init);
    assert forall i :: 0 <= i < |t| ==> Names(t)[i] == t[i].name;
  }

  /** A value the keys never take is not an entry name. */
  lemma NamesOmit(t: seq<NameCount>, init: seq<string>, x: string)
    requires Names(t) == Distinct(init) && x !in Distinct(init)
    ensures forall i :: 0 <= i < |t| ==> t[i].name != x
    ensures multiset(init)[x] == 0
  {
    DistinctMeaning(init);
    assert forall i :: 0 <= i < |t| ==> Names(t)[i] == t[i].name;
  }

  lemma CountsStepPresent(t: seq<NameCount>, init: seq<string>, x: string, j: nat)
    requires CountsMatch(t, init) && j < |t| && t[j].name == x
    requires forall i :: 0 <= i < |t| && i != j ==> t[i].name != x
    ensures CountsMatch(t[j := NameCount(x, t[j].count + 1)], init + [x])
  {
    assert multiset(init + [x]) == multiset(init) + multiset{x};
  }

  lemma CountsStepAbsent(t: seq<NameCount>, init: seq<string>, x: string)
    requires CountsMatch(t, init) && multiset(init)[x] == 0
    requires forall i :: 0 <= i < |t| ==> t[i].name != x
    ensures CountsMatch(t + [NameCount(x, 1)], init + [x])
  {
    assert multiset(init + [x]) == multiset(init) + multiset{x};
  }

  /** The `forEach` pass produces one entry per distinct key, in first-seen order,
    * holding the number of occurrences of that key. */
  lemma {:induction false} TallyCounts(keys: seq<string>)
    ensures CountsOf(Tally(keys), keys)
  {
    if keys != [] {
      var init, x := keys[..|keys| - 1], keys[|keys| - 1];
      assert keys == init + [x];
      TallyCounts(init);
      var t := Tally(init);
      assert Names(t) == Distinct(init) && CountsMatch(t, init);
      if x in Distinct(init) {
        var j :| 0 <= j < |t| && Names(t)[j] == x;
        DistinctMeaning(init);
        BumpPresent(t, x, j);
        NamesStepPresent(t, init, x, j);
        NamesApart(t, init);
        CountsStepPresent(t, init, x, j);
      } else {
        BumpAbsent(t, x);
        NamesStepAbsent(t, init, x);
        NamesOmit(t, init, x);
        CountsStepAbsent(t, init, x);
      }
    }
  }

  /** The counts add up to the number of keys tallied. */
  lemma {:induction false} TallyTotal(keys: seq<string>)
    ensures Total(Tally(keys)) == |keys|
  {
    if keys != [] {
      TallyTotal(keys[..|keys| - 1]);
      BumpTotal(Tally(keys[..|keys| - 1]), keys[|keys| - 1]);
    }
  }

  /** Every entry of a tally counts at least one occurrence. */
  lemma TallyPositive(keys: seq<string>)
    ensures forall i :: 0 <= i < |Tally(keys)| ==> Tally(keys)[i].count >= 1
  {
    TallyCounts(keys);
    DistinctMeaning(keys);
    forall i | 0 <= i < |Tally(keys)| ensures Tally(keys)[i].count >= 1 {
      assert Tally(keys)[i].name in Distinct(keys);
    }
  }

  /** Chapter dictionary: the first record seen for a chapter fixes its subject. */
  function BumpChapter(t: seq<ChapterCount>, chapter: string, subject: string): seq<ChapterCount> {
    if t == [] then [ChapterCount(chapter, subject, 1)]
    else if t[0].chapter == chapter then [t[0].(count := t[0].count + 1)] + t[1..]
    else [t[0]] + BumpChapter(t[1..], chapter, subject)
  }

  /** The chapter dictionary after a pass over `(chapter, subject)` pairs. */
  function ChapterTally(ps: seq<(string, string)>): seq<ChapterCount> {
    if ps == [] then []
    else BumpChapter(ChapterTally(ps[..|ps| - 1]), ps[|ps| - 1].0, ps[|ps| - 1].1)
  }

  function Chapters(ps: seq<(string, string)>): (r: seq<string>)
    ensures |r| == |ps| && forall i :: 0 <= i < |ps| ==> r[i] == ps[i].0
  {
    seq(|ps|, i requires 0 <= i < |ps| => ps[i].0)
  }

  /** The chapter dictionary read as a plain name/count dictionary. */
  function AsNameCounts(t: seq<ChapterCount>): (r: seq<NameCount>)
    ensures |r| == |t| && forall i :: 0 <= i < |t| ==> r[i] == NameCount(t[i].chapter, t[i].count)
  {
    seq(|t|, i requires 0 <= i < |t| => NameCount(t[i].chapter, t[i].count))
  }

  /** The subject of the first pair whose chapter is `c`. */
  function FirstSubject(ps: seq<(string, string)>, c: string): string
    requires c in Chapters(ps)
  {
    if ps[0].0 == c then ps[0].1
    else
      assert Chapters(ps[1..]) == Chapters(ps)[1..];
      FirstSubject(ps[1..], c)
  }

  lemma {:induction false} BumpChapterProjects(t: seq<ChapterCount>, c: string, s: string)
    ensures AsNameCounts(BumpChapter(t, c, s)) == Bump(AsNameCounts(t), c)
  {
    if t != [] {
      assert AsNameCounts(t)[1..] == AsNameCounts(t[1..]);
      if t[0].chapter != c {
        BumpChapterProjects(t[1..], c, s);
      }
    }
  }

  /** Counting chapters with a subject attached counts them exactly as a plain
    * dictionary keyed by chapter would. */
  lemma {:induction false} ChapterTallyProjects(ps: seq<(string, string)>)
    ensures AsNameCounts(ChapterTally(ps)) == Tally(Chapters(ps))
  {
    if ps != [] {
      var init := ps[..|ps| - 1];
      ChapterTallyProjects(init);
      assert Chapters(ps)[..|ps| - 1] == Chapters(init);
      BumpChapterProjects(ChapterTally(init), ps[|ps| - 1].0, ps[|ps| - 1].1);
    }
  }

  lemma {:induction false} FirstSubjectPrefix(ps: seq<(string, string)>, p: (string, string), c: string)
    requires c in Chapters(ps)
    ensures c in Chapters(ps + [p]) && FirstSubject(ps + [p], c) == FirstSubject(ps, c)
  {
    assert Chapters(ps + [p]) == Chapters(ps) + [p.0];
    if ps[0].0 != c {
      assert (ps + [p])[1..] == ps[1..] + [p];
      assert Chapters(ps[1..]) == Chapters(ps)[1..];
      FirstSubjectPrefix(ps[1..], p, c);
    }
  }

  /** Bumping a chapter keeps every existing entry's chapter and subject, and adds at
    * most one entry. */
  lemma {:induction false} BumpChapterPrefix(t: seq<ChapterCount>, c: string, s: string)
    ensures |t| <= |BumpChapter(t, c, s)| <= |t| + 1
    ensures forall i :: 0 <= i < |t| ==>
      BumpChapter(t, c, s)[i].chapter == t[i].chapter && BumpChapter(t, c, s)[i].subject == t[i].subject
  {
    if t != [] && t[0].chapter != c {
      BumpChapterPrefix(t[1..], c, s);
    }
  }

  /** An added entry is a new chapter with the subject it was first seen with. */
  lemma {:induction false} BumpChapterNew(t: seq<ChapterCount>, c: string, s: string)
    ensures |BumpChapter(t, c, s)| == |t| + 1 ==>
      BumpChapter(t, c, s)[|t|] == ChapterCount(c, s, 1) && forall k :: 0 <= k < |t| ==> t[k].chapter != c
  {
    if t != [] && t[0].chapter != c {
      BumpChapterNew(t[1..], c, s);
      BumpChapterPrefix(t[1..], c, s);
    }
  }

  /** Every chapter of the pairs has an entry in the chapter dictionary. */
  lemma ChapterTallyCovers(ps: seq<(string, string)>)
    ensures forall k :: 0 <= k < |ps| ==> ps[k].0 in Names(AsNameCounts(ChapterTally(ps)))
  {
    ChapterTallyProjects(ps);
    TallyCounts(Chapters(ps));
    DistinctMeaning(Chapters(ps));
    forall k | 0 <= k < |ps| ensures ps[k].0 in Names(AsNameCounts(ChapterTally(ps))) {
      assert Chapters(ps)[k] == ps[k].0;
    }
  }

  /** Every entry's chapter occurs in the pairs and carries its first subject. */
  ghost predicate SubjectsFirst(t: seq<ChapterCount>, ps: seq<(string, string)>) {
    forall i :: 0 <= i < |t| ==> t[i].chapter in Chapters(ps) && t[i].subject == FirstSubject(ps, t[i].chapter)
  }

  lemma ChapterSubjectsStep(init: seq<(string, string)>, p: (string, string))
    requires SubjectsFirst(ChapterTally(init), init)
    ensures SubjectsFirst(ChapterTally(init + [p]), init + [p])
  {
    var ps := init + [p];
    var t := ChapterTally(init);
    assert ps[..|ps| - 1] == init;
    var u := ChapterTally(ps);
    assert u == BumpChapter(t, p.0, p.1);
    BumpChapterPrefix(t, p.0, p.1);
    BumpChapterNew(t, p.0, p.1);
    forall i | 0 <= i < |u| ensures u[i].chapter in Chapters(ps) && u[i].subject == FirstSubject(ps, u[i].chapter) {
      if i < |t| {
        FirstSubjectPrefix(init, p, t[i].chapter);
      } else {
        assert p.0 !in Chapters(init) by {
          ChapterTallyCovers(init);
          forall k | 0 <= k < |init| ensures Chapters(init)[k] != p.0 {
            var names := Names(AsNameCounts(t));
            var m :| 0 <= m < |names| && names[m] == init[k].0;
            assert t[m].chapter == init[k].0;
          }
        }
        FirstSubjectLast(init, p);
      }
    }
  }

  /** Each chapter keeps the subject of the first pair seen for it. */
  lemma {:induction false} ChapterTallySubjects(ps: seq<(string, string)>)
    ensures forall i :: 0 <= i < |ChapterTally(ps)| ==>
      ChapterTally(ps)[i].chapter in Chapters(ps)
      && ChapterTally(ps)[i].subject == FirstSubject(ps, ChapterTally(ps)[i].chapter)
  {
    if ps != [] {
      var init, p := ps[..|ps| - 1], ps[|ps| - 1];
      assert ps == init + [p];
      ChapterTallySubjects(init);
      ChapterSubjectsStep(init, p);
    }
  }

  lemma {:induction false} FirstSubjectLast(ps: seq<(string, string)>, p: (string, string))
    requires p.0 !in Chapters(ps)
    ensures p.0 in Chapters(ps + [p]) && FirstSubject(ps + [p], p.0) == p.1
  {
    assert Chapters(ps + [p]) == Chapters(ps) + [p.0];
    if ps != [] {
      assert (ps + [p])[1..] == ps[1..] + [p];
      assert Chapters(ps[1..]) == Chapters(ps)[1..];
      FirstSubjectLast(ps[1..], p);
    }
  }
}
