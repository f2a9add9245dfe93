/** Revision mode: the unreviewed mistakes, oldest first, each with a button that marks
  * it revised and takes it off the list. */
module Revision {
  import opened Seqs
  import opened Ranking
  import opened Mistakes

  /** What the page's query returns: the unreviewed rows by ascending creation time. */
  function RevisionList(rows: seq<Mistake>): seq<Mistake> {
    SortDesc(Unreviewed(rows), OldestFirst)
  }

  /** The list holds every unreviewed row and nothing else, the oldest first. */
  lemma RevisionListMeaning(rows: seq<Mistake>)
    ensures var r := RevisionList(rows);
      && multiset(r) == multiset(Unreviewed(rows))
      && (forall k :: 0 <= k < |r| ==> !r[k].isReviewed)
      && (forall i, j :: 0 <= i < j < |r| ==> r[i].createdAt <= r[j].createdAt)
  {
    var u := Unreviewed(rows);
    SortDescSorted(u, OldestFirst);
    FilterMembers(rows, IsUnreviewed);
    var r := RevisionList(rows);
    forall k | 0 <= k < |r| ensures !r[k].isReviewed {
      assert r[k] in multiset(u);
      var m :| 0 <= m < |u| && u[m] == r[k];
    }
    forall i, j | 0 <= i < j < |r| ensures r[i].createdAt <= r[j].createdAt {
      assert OldestFirst(r[i]) >= OldestFirst(r[j]);
    }
  }

  /** Dropping the revised row from the list on screen gives the same list as asking
    * the store again after the update: the page never needs to re-fetch. */
  lemma RemoveAgreesWithRefetch(rows: seq<Mistake>, id: string, now: int)
    ensures RemoveId(RevisionList(rows), id) == RevisionList(MarkReviewed(rows, id, now))
  {
    MarkReviewedUnreviewed(rows, id, now);
    SortCommutesWithFilter(Unreviewed(rows), HasNotId(id), OldestFirst);
  }

  /** Removing by id takes out every entry with that id and keeps the others, in order. */
  lemma RemoveIdMeaning(rows: seq<Mistake>, id: string)
    ensures var r := RemoveId(rows, id);
      && (forall k :: 0 <= k < |r| ==> r[k].id != id && r[k] in rows)
      && (forall k :: 0 <= k < |rows| && rows[k].id != id ==> rows[k] in r)
      && |r| == |rows| - multiset(Ids(rows))[id]
  {
    FilterMembers(rows, HasNotId(id));
    RemoveIdCount(rows, id);
  }

  function Ids(rows: seq<Mistake>): (r: seq<string>)
    ensures |r| == |rows| && forall k :: 0 <= k < |rows| ==> r[k] == rows[k].id
  {
    if rows == [] then [] else [rows[0].id] + Ids(rows[1..])
  }

  lemma {:induction false} RemoveIdCount(rows: seq<Mistake>, id: string)
    ensures |RemoveId(rows, id)| == |rows| - multiset(Ids(rows))[id]
  {
    if rows != [] {
      RemoveIdCount(rows[1..], id);
      assert Ids(rows) == [rows[0].id] + Ids(rows[1..]);
    }
  }

  /** "1 mistake pending revision", otherwise "mistakes". */
  function PendingNoun(n: nat): (r: string)
    ensures r == "mistake" <==> n == 1
  {
    if n != 1 then "mistakes" else "mistake"
  }

  class RevisionView {
    /** The `mistakes` table as the page sees it. */
    var store: seq<Mistake>
    const signedIn: bool
    var mistakes: seq<Mistake>
    var loading: bool

    /** Once loaded, the list on screen is what the query would return now. */
    ghost predicate Synced()
      reads this
    {
      signedIn && !loading ==> mistakes == RevisionList(store)
    }

    constructor(store: seq<Mistake>, signedIn: bool)
      ensures this.store == store && this.signedIn == signedIn
      ensures mistakes == [] && loading
      ensures Synced()
    {
      this.store := store;
      this.signedIn := signedIn;
      mistakes, loading := [], true;
    }

    method Fetch()
      modifies this`mistakes, this`loading
      ensures signedIn ==> mistakes == RevisionList(store) && !loading
      ensures !signedIn ==> mistakes == old(mistakes) && loading == old(loading)
      ensures old(Synced()) ==> Synced()
    {
      if signedIn {
        loading := true;
        mistakes := RevisionList(store);
        loading := false;
      }
    }

    /** "Mark as Revised": when the store `accepted` the update the row is reviewed at
      * `now` and leaves the list; otherwise nothing changes. */
    method MarkAsRevised(id: string, now: int, accepted: bool)
      requires Synced()
      modifies this`store, this`mistakes
      ensures Synced()
      ensures accepted ==> store == MarkReviewed(old(store), id, now) && mistakes == RemoveId(old(mistakes), id)
      ensures !accepted ==> store == old(store) && mistakes == old(mistakes)
    {
      if !accepted {
        return;
      }
      RemoveAgreesWithRefetch(store, id, now);
      store := MarkReviewed(store, id, now);
      mistakes := RemoveId(mistakes, id);
    }
  }
}
