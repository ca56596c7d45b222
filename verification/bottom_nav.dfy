/** components/BottomNav.tsx: when the bottom navigation is hidden and which
    item is highlighted. */
module BottomNav {
  import opened Wrappers
  import opened Text

  datatype NavItem = NavItem(href: string, title: string)

  /** The items, in display order. */
  const NavItems: seq<NavItem> := [
    NavItem("/", "Home"),
    NavItem("/leaderboard", "Leaderboard"),
    NavItem("/history", "History"),
    NavItem("/profile", "Profile")
  ]

  /** Hidden while taking a quiz or viewing results: the path contains
      "/quiz/" or "/results" anywhere. */
  predicate Hidden(pathname: string) {
    Contains(pathname, "/quiz/") || Contains(pathname, "/results")
  }

  /** Active only on an exact path match. */
  predicate IsActive(pathname: string, item: NavItem) {
    pathname == item.href
  }

  datatype RenderedItem = RenderedItem(item: NavItem, active: bool)

  /** The rendered bar, or `None` when hidden. */
  function Render(pathname: string): (r: Option<seq<RenderedItem>>)
    ensures r.None? <==> Hidden(pathname)
    ensures r.Some? ==> |r.value| == |NavItems| && forall i :: 0 <= i < |NavItems| ==>
      r.value[i].item == NavItems[i] && (r.value[i].active <==> pathname == NavItems[i].href)
  {
    if Hidden(pathname) then None
    else Some(seq(|NavItems|, i requires 0 <= i < |NavItems| =>
      RenderedItem(NavItems[i], IsActive(pathname, NavItems[i]))))
  }

  /** The hrefs are distinct, so at most one item is active. */
  lemma AtMostOneActive(pathname: string)
    ensures forall i, j ::
      (0 <= i < |NavItems| && 0 <= j < |NavItems| &&
       IsActive(pathname, NavItems[i]) && IsActive(pathname, NavItems[j])) ==> i == j
  {
  }

  /** Hidden exactly when one of the two markers occurs at some position. */
  lemma HiddenIffMarkerOccurs(pathname: string)
    ensures Hidden(pathname) <==>
      (exists i :: OccursAt(pathname, "/quiz/", i)) || (exists i :: OccursAt(pathname, "/results", i))
  {
    ContainsIffOccurs(pathname, "/quiz/");
    ContainsIffOccurs(pathname, "/results");
  }

  /** Any path with a quiz-id segment hides the bar. */
  lemma QuizSegmentHides(prefix: string, rest: string)
    ensures Hidden(prefix + "/quiz/" + rest)
  {
    var p := prefix + "/quiz/" + rest;
    assert p[|prefix|..|prefix| + 6] == "/quiz/";
    assert OccursAt(p, "/quiz/", |prefix|);
    ContainsIffOccurs(p, "/quiz/");
  }

  /** "/quiz" itself (no trailing slash) keeps the bar; "/history/" activates
      no item. */
  lemma PathExamples()
    ensures !Hidden("/quiz")
    ensures !Hidden("/")
    ensures forall i :: 0 <= i < |NavItems| ==> !IsActive("/history/", NavItems[i])
    ensures IsActive("/history", NavItems[2])
  {
    ContainsIffOccurs("/quiz", "/quiz/");
    ContainsIffOccurs("/quiz", "/results");
    ContainsIffOccurs("/", "/quiz/");
    ContainsIffOccurs("/", "/results");
  }
}
