/** The page header: scroll-spy selection of the active section, the navigation links
    that highlight it, the mobile-menu toggle and in-page scrolling to a link's target. */
module Navigation {
  import opened Js

  /** A `section[id]` element of the page, with its layout in whole pixels. */
  datatype Section = Section(id: string, offsetTop: int, offsetHeight: int)

  /** Below this scroll offset the page counts as being at its top. */
  const HomeThreshold: int := 100
  /** Each section's window starts this far above its top edge. */
  const HeaderAllowance: int := 100

  const Home: string := "home"

  /** The half-open window `[offsetTop - 100, offsetTop - 100 + offsetHeight)`. Only a
      section of positive height has a window at all. */
  function InWindow(sec: Section, scrollY: int): (r: bool)
    ensures r ==> 0 < sec.offsetHeight
    ensures r ==> sec.offsetTop - HeaderAllowance <= scrollY
  {
    var top := sec.offsetTop - HeaderAllowance;
    top <= scrollY < top + sec.offsetHeight
  }

  /** The position, in document order, of the last section whose window holds `scrollY`. */
  function LastMatch(sections: seq<Section>, scrollY: int): (r: Option<nat>)
    ensures r.Some? ==> r.value < |sections| && InWindow(sections[r.value], scrollY)
    ensures r.Some? ==> forall j :: r.value < j < |sections| ==> !InWindow(sections[j], scrollY)
    ensures r.None? ==> forall j :: 0 <= j < |sections| ==> !InWindow(sections[j], scrollY)
    decreases |sections|
  {
    if |sections| == 0 then None
    else if InWindow(sections[|sections| - 1], scrollY) then Some(|sections| - 1)
    else LastMatch(sections[..|sections| - 1], scrollY)
  }

  /** The section the header highlights for scroll offset `scrollY`. */
  function ScrollSpy(sections: seq<Section>, scrollY: int): (r: string)
    ensures scrollY < HomeThreshold ==> r == Home
    ensures r == Home || exists k :: 0 <= k < |sections| && sections[k].id == r
    ensures (HomeThreshold <= scrollY && forall j :: 0 <= j < |sections| ==> !InWindow(sections[j], scrollY))
            ==> r == Home
    ensures HomeThreshold <= scrollY ==>
              forall k :: 0 <= k < |sections| && InWindow(sections[k], scrollY)
                && (forall j :: k < j < |sections| ==> !InWindow(sections[j], scrollY))
                ==> r == sections[k].id
  {
    if scrollY < HomeThreshold then Home
    else match LastMatch(sections, scrollY)
      case None => Home
      case Some(k) => sections[k].id
  }

  /** The walk `handleScroll` makes over the sections, overwriting `current` on each match. */
  method SelectSection(sections: seq<Section>, scrollY: int) returns (current: string)
    ensures current == ScrollSpy(sections, scrollY)
  {
    current := Home;
    if scrollY < HomeThreshold {
      current := Home;
    } else {
      var i := 0;
      while i < |sections|
        invariant 0 <= i <= |sections|
        invariant current == match LastMatch(sections[..i], scrollY)
                             case None => Home
                             case Some(k) => sections[k].id
      {
        var sectionTop := sections[i].offsetTop - HeaderAllowance;
        var sectionHeight := sections[i].offsetHeight;
        if scrollY >= sectionTop && scrollY < sectionTop + sectionHeight {
          current := sections[i].id;
        }
        assert sections[..i + 1][..i] == sections[..i];
        i := i + 1;
      }
      assert sections[..i] == sections;
    }
  }

  /** Sections whose windows do not overlap, as the page lays them out. */
  ghost predicate DisjointWindows(sections: seq<Section>)
  {
    forall i, j, y :: 0 <= i < j < |sections| && InWindow(sections[i], y) ==> !InWindow(sections[j], y)
  }

  /** With non-overlapping windows, an offset inside one section's window (and past the
      top threshold) selects exactly that section. */
  lemma WindowSelectsItsSection(sections: seq<Section>, k: nat, scrollY: int)
    requires DisjointWindows(sections)
    requires k < |sections| && InWindow(sections[k], scrollY) && HomeThreshold <= scrollY
    ensures ScrollSpy(sections, scrollY) == sections[k].id
  {
    assert forall j :: k < j < |sections| ==> !InWindow(sections[j], scrollY);
  }

  datatype NavLink = NavLink(name: string, href: string, id: string)

  const NavLinks: seq<NavLink> := [
    NavLink("Home", "#", "home"),
    NavLink("About", "#about-me", "about-me"),
    NavLink("Skills", "#skills", "skills"),
    NavLink("Education", "#education", "education"),
    NavLink("Projects", "#projects", "projects"),
    NavLink("Contact", "#contact", "contact")
  ]

  /** The `section[id]` elements of the page, in document order. */
  const PageSectionIds: seq<string> :=
    ["home", "about-me", "skills", "education", "certifications", "projects", "contact"]

  /** No two navigation links share an id. */
  lemma NavLinkIdsDistinct()
    ensures forall i, j :: 0 <= i < j < |NavLinks| ==> NavLinks[i].id != NavLinks[j].id
  {
  }

  /** The test that gives the link at position `j` its `active` class. Only a section
      of the page other than `certifications` can mark a link active. */
  function IsActiveLink(j: nat, activeSection: string): (r: bool)
    requires j < |NavLinks|
    ensures r ==> activeSection in PageSectionIds && activeSection != "certifications"
  {
    activeSection == NavLinks[j].id
  }

  /** The position of the first link in `links` whose id is `id`, if any. */
  function IndexOfId(links: seq<NavLink>, id: string): (r: Option<nat>)
    ensures r.Some? ==> r.value < |links| && links[r.value].id == id
    ensures r.Some? ==> forall j :: 0 <= j < r.value ==> links[j].id != id
    ensures r.None? ==> forall j :: 0 <= j < |links| ==> links[j].id != id
    decreases |links|
  {
    if |links| == 0 then None
    else if links[0].id == id then Some(0)
    else match IndexOfId(links[1..], id)
      case None => None
      case Some(k) => Some(k + 1)
  }

  /** The link the header highlights for `activeSection`, if any: the only link that
      passes the active-class test. */
  function HighlightedLink(activeSection: string): (r: Option<nat>)
    ensures r.Some? ==> r.value < |NavLinks| && IsActiveLink(r.value, activeSection)
    ensures r.Some? ==> forall j :: 0 <= j < |NavLinks| && j != r.value ==> !IsActiveLink(j, activeSection)
    ensures r.None? ==> forall j :: 0 <= j < |NavLinks| ==> !IsActiveLink(j, activeSection)
  {
    NavLinkIdsDistinct();
    IndexOfId(NavLinks, activeSection)
  }

  /** At most one link is highlighted at a time. */
  lemma AtMostOneActiveLink(activeSection: string, i: nat, j: nat)
    requires i < |NavLinks| && j < |NavLinks|
    requires IsActiveLink(i, activeSection) && IsActiveLink(j, activeSection)
    ensures i == j
  {
    var h := HighlightedLink(activeSection);
    assert h.Some? ==> i == h.value && j == h.value;
  }

  /** The certifications section is on the page but has no link, so scrolling to it
      highlights no link; every link's section is on the page. */
  lemma CertificationsHighlightsNoLink()
    ensures "certifications" in PageSectionIds
    ensures HighlightedLink("certifications").None?
    ensures forall j :: 0 <= j < |NavLinks| ==> NavLinks[j].id in PageSectionIds
  {
  }

  /** Where `scrollToSection` scrolls the window. */
  datatype ScrollAction = ScrollToTop | ScrollIntoView(elementId: string) | NoScroll

  /** The scroll a link target causes. `"#"` means the top of the page; any other
      `#id` target scrolls to the element with that id when the document has one. */
  function ScrollTarget(href: string, elementIds: set<string>): (a: ScrollAction)
    requires |href| > 0 && href[0] == '#'
    ensures a.ScrollToTop? <==> href == "#"
    ensures a.ScrollIntoView? <==> href != "#" && href[1..] in elementIds
    ensures a.ScrollIntoView? ==> "#" + a.elementId == href
    ensures a.NoScroll? <==> href != "#" && href[1..] !in elementIds
  {
    if href == "#" then ScrollToTop
    else if href[1..] in elementIds then ScrollIntoView(href[1..])
    else NoScroll
  }

  /** On this page every navigation link scrolls: the home link to the top and every
      other link to the section it names. */
  lemma EveryNavLinkScrolls(j: nat)
    requires j < |NavLinks|
    ensures var a := ScrollTarget(NavLinks[j].href, set id | id in PageSectionIds);
      if j == 0 then a == ScrollToTop else a == ScrollIntoView(NavLinks[j].id)
  {
    var ids := set id | id in PageSectionIds;
    assert PageSectionIds[1] in ids && PageSectionIds[2] in ids && PageSectionIds[3] in ids;
    assert PageSectionIds[5] in ids && PageSectionIds[6] in ids;
  }

  /** The header component's state. */
  class Header {
    var activeSection: string
    var isMobileMenuOpen: bool

    constructor ()
      ensures activeSection == Home && !isMobileMenuOpen
    {
      activeSection := Home;
      isMobileMenuOpen := false;
    }

    /** The scroll listener. */
    method HandleScroll(sections: seq<Section>, scrollY: int)
      modifies this
      ensures activeSection == ScrollSpy(sections, scrollY)
      ensures isMobileMenuOpen == old(isMobileMenuOpen)
    {
      var current := SelectSection(sections, scrollY);
      activeSection := current;
    }

    /** The mobile-menu button. */
    method ToggleMobileMenu()
      modifies this
      ensures isMobileMenuOpen == !old(isMobileMenuOpen)
      ensures activeSection == old(activeSection)
    {
      isMobileMenuOpen := !isMobileMenuOpen;
    }

    /** A click on a link: the browser's own navigation is always prevented, the menu
        always closes, and the window scrolls as `ScrollTarget` says. */
    method ScrollToSection(href: string, elementIds: set<string>) returns (defaultPrevented: bool, action: ScrollAction)
      requires |href| > 0 && href[0] == '#'
      modifies this
      ensures defaultPrevented && !isMobileMenuOpen
      ensures action == ScrollTarget(href, elementIds)
      ensures activeSection == old(activeSection)
    {
      defaultPrevented := true;
      isMobileMenuOpen := false;
      if href == "#" {
        action := ScrollToTop;
      } else {
        var id := href[1..];
        if id in elementIds {
          action := ScrollIntoView(id);
        } else {
          action := NoScroll;
        }
      }
    }
  }

  /** Two presses of the menu button restore the menu's state. */
  method ToggleTwiceRestores(h: Header)
    modifies h
    ensures h.isMobileMenuOpen == old(h.isMobileMenuOpen)
    ensures h.activeSection == old(h.activeSection)
  {
    h.ToggleMobileMenu();
    h.ToggleMobileMenu();
  }
}
