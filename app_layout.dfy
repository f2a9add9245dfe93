/** The signed-in layout: navigation entries, the avatar initials and the short labels
  * of the mobile bar. */
module AppLayout {
  import opened Wrappers
  import opened Seqs
  import opened Text
  import opened Ranking

  datatype NavItem = NavItem(route: string, caption: string)

  const NAV_ITEMS: seq<NavItem> := [
    NavItem("/dashboard", "Dashboard"),
    NavItem("/log", "Log Mistake"),
    NavItem("/history", "History"),
    NavItem("/analytics", "Analytics"),
    NavItem("/settings", "Settings")
  ]

  const NO_INITIALS: string := "??"
  const MAX_INITIALS: nat := 2

  function Route(item: NavItem): string { item.route }

  /** Five entries with distinct routes; revision mode is reached from elsewhere. */
  lemma NavRoutes()
    ensures |NAV_ITEMS| == 5
    ensures forall i, j :: 0 <= i < j < |NAV_ITEMS| ==> NAV_ITEMS[i].route != NAV_ITEMS[j].route
    ensures forall i :: 0 <= i < |NAV_ITEMS| ==> NAV_ITEMS[i].route != "/revision"
  {
  }

  /** A mobile entry is highlighted when the path is exactly its route. */
  predicate IsActive(pathname: string, item: NavItem) {
    pathname == item.route
  }

  /** At most one entry of the mobile bar is highlighted, and none on a path that is
    * not one of the five routes, such as `/revision` or `/history/2`. */
  lemma ActiveAtMostOne(pathname: string)
    ensures forall i, j :: 0 <= i < j < |NAV_ITEMS| ==> !(IsActive(pathname, NAV_ITEMS[i]) && IsActive(pathname, NAV_ITEMS[j]))
    ensures (forall i :: 0 <= i < |NAV_ITEMS| ==> NAV_ITEMS[i].route != pathname) ==>
      forall i :: 0 <= i < |NAV_ITEMS| ==> !IsActive(pathname, NAV_ITEMS[i])
  {
    NavRoutes();
  }

  /** The label on the mobile bar: the label up to its first space. */
  function MobileLabel(caption: string): string {
    Split(caption, ' ')[0]
  }

  /** The short label starts the full one, has no space, and is all of it or stops at a
    * space. */
  lemma MobileLabelMeaning(caption: string)
    ensures var m := MobileLabel(caption);
      && StartsWith(caption, m) && ' ' !in m
      && (|m| == |caption| || caption[|m|] == ' ')
  {
    SplitFirst(caption, ' ');
  }

  predicate NonEmpty(w: string) { w != "" }

  /** The words of a name: the pieces between spaces that are not empty. */
  function Words(name: string): seq<string> {
    Filter(Split(name, ' '), NonEmpty)
  }

  /** `pieces.map(n => n[0]).join('')`: an empty piece gives `undefined`, which `join`
    * writes as nothing. */
  function FirstLetters(pieces: seq<string>): (r: string)
    ensures |r| == |Filter(pieces, NonEmpty)|
    ensures forall k :: 0 <= k < |r| ==> Filter(pieces, NonEmpty)[k] != [] && r[k] == Filter(pieces, NonEmpty)[k][0]
  {
    if pieces == [] then ""
    else if pieces[0] == "" then FirstLetters(pieces[1..])
    else [pieces[0][0]] + FirstLetters(pieces[1..])
  }

  /** The avatar text: `??` without a name, otherwise the first letters of the words,
    * upper-cased, at most two. */
  function Initials(name: Option<string>): string {
    if name.None? || name.value == "" then NO_INITIALS
    else Take(Upper(FirstLetters(Split(name.value, ' '))), MAX_INITIALS)
  }

  lemma InitialsMeaning(name: Option<string>)
    ensures var r := Initials(name);
      && (name.None? || name == Some("") ==> r == NO_INITIALS)
      && (name.Some? && name.value != "" ==>
            && |r| == (if |Words(name.value)| < MAX_INITIALS then |Words(name.value)| else MAX_INITIALS)
            && forall k :: 0 <= k < |r| ==> Words(name.value)[k] != [] && r[k] == UpperChar(Words(name.value)[k][0]))
      && |r| <= MAX_INITIALS
      && forall k :: 0 <= k < |r| ==> !('a' <= r[k] <= 'z')
  {
  }

  /** A name made only of spaces has no words, so its avatar is empty rather than `??`. */
  lemma BlankNameHasNoInitials()
    ensures Initials(Some("  ")) == ""
  {
    assert Split("  ", ' ') == ["", "", ""] by {
      assert Split(" ", ' ') == ["", ""];
    }
  }
}
