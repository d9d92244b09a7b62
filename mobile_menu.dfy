/**
 * The hamburger menu: the hamburger button and the navigation menu carry one
 * `active` class flag each; a hamburger click flips both, a click on a `.nav-link`
 * or anywhere outside both elements clears both. On load the link of the current
 * page is marked `active`.
 */
module MobileMenu {
  import PagePath

  /** Where a click lands. A `.nav-link` normally sits inside the menu; one outside it
      is seen by the document's handler as well. */
  datatype Target = OnHamburger | OnMenuLink | InMenu | OnOtherLink | Outside

  /** The click landed outside both the hamburger and the menu. */
  predicate OutsideBoth(t: Target)
  {
    t == OnOtherLink || t == Outside
  }

  predicate OnNavLink(t: Target)
  {
    t == OnMenuLink || t == OnOtherLink
  }

  /** `active` on the hamburger and on the menu. */
  datatype MenuState = MenuState(hamburgerActive: bool, menuActive: bool)

  predicate Agrees(s: MenuState)
  {
    s.hamburgerActive == s.menuActive
  }

  const Inactive := MenuState(false, false)

  /** `classList.toggle('active')` on both elements. */
  function AfterHamburgerClick(s: MenuState): MenuState
  {
    MenuState(!s.hamburgerActive, !s.menuActive)
  }

  /** The link handler: `classList.remove('active')` on both. */
  function AfterLinkClick(s: MenuState): MenuState
  {
    Inactive
  }

  /** The document's handler: the same removal, only for a click outside both elements. */
  function AfterDocumentClick(s: MenuState, t: Target): MenuState
  {
    if OutsideBoth(t) then Inactive else s
  }

  /** A click bubbles from its target upwards: a link's own handler runs first, then
      the hamburger's (for a click on it), then the document's. */
  function AfterClick(s: MenuState, t: Target): MenuState
  {
    var afterLink := if OnNavLink(t) then AfterLinkClick(s) else s;
    var afterHamburger := if t == OnHamburger then AfterHamburgerClick(afterLink) else afterLink;
    AfterDocumentClick(afterHamburger, t)
  }

  /** Every click keeps the two flags in agreement. */
  lemma ClickPreservesAgreement(s: MenuState, t: Target)
    requires Agrees(s)
    ensures Agrees(AfterClick(s, t))
  {
  }

  /** The hamburger's toggle is not undone by the document's handler; two hamburger
      clicks restore the state. */
  lemma HamburgerClickFlips(s: MenuState)
    ensures AfterClick(s, OnHamburger) == MenuState(!s.hamburgerActive, !s.menuActive)
    ensures AfterClick(AfterClick(s, OnHamburger), OnHamburger) == s
  {
  }

  /** Link clicks and clicks outside both elements close the menu, idempotently; a click
      inside the menu that is not on a link changes nothing. */
  lemma ClosingClicks(s: MenuState, t: Target)
    ensures OnNavLink(t) || OutsideBoth(t) ==> AfterClick(s, t) == Inactive
    ensures OnNavLink(t) || OutsideBoth(t) ==> AfterClick(AfterClick(s, t), t) == AfterClick(s, t)
    ensures AfterClick(s, InMenu) == s
  {
  }

  class Hamburger {
    var active: bool
    constructor (active: bool)
      ensures this.active == active
    {
      this.active := active;
    }
  }

  class NavMenu {
    var active: bool
    constructor (active: bool)
      ensures this.active == active
    {
      this.active := active;
    }
  }

  /** A `.nav-link`: its `href` (present: `getAttribute('href').split` would throw
      otherwise) and its class list. */
  class NavLink {
    const href: string
    var classes: set<string>
    constructor (href: string, classes: set<string>)
      ensures this.href == href && this.classes == classes
    {
      this.href := href;
      this.classes := classes;
    }
  }

  /** The elements whose handlers were installed. */
  class Menu {
    const hamburger: Hamburger
    const navMenu: NavMenu

    constructor (hamburger: Hamburger, navMenu: NavMenu)
      ensures this.hamburger == hamburger && this.navMenu == navMenu
    {
      this.hamburger := hamburger;
      this.navMenu := navMenu;
    }

    function State(): MenuState
      reads hamburger, navMenu
    {
      MenuState(hamburger.active, navMenu.active)
    }

    method HamburgerClicked()
      modifies hamburger, navMenu
      ensures State() == AfterHamburgerClick(old(State()))
    {
      hamburger.active := !hamburger.active;
      navMenu.active := !navMenu.active;
    }

    method LinkClicked()
      modifies hamburger, navMenu
      ensures State() == AfterLinkClick(old(State()))
    {
      hamburger.active := false;
      navMenu.active := false;
    }

    method DocumentClicked(t: Target)
      modifies hamburger, navMenu
      ensures State() == AfterDocumentClick(old(State()), t)
    {
      var inHamburger := t == OnHamburger;
      var inMenu := t == OnMenuLink || t == InMenu;
      if !inHamburger && !inMenu {
        hamburger.active := false;
        navMenu.active := false;
      }
    }

    /** One click, delivered to each handler on its way up. */
    method Click(t: Target)
      modifies hamburger, navMenu
      ensures State() == AfterClick(old(State()), t)
      ensures old(Agrees(State())) ==> Agrees(State())
    {
      if OnNavLink(t) {
        LinkClicked();
      }
      if t == OnHamburger {
        HamburgerClicked();
      }
      DocumentClicked(t);
    }
  }

  // ------------------------------------------------ active page (29-35)

  /** The script's test, as written: the second disjunct covers an empty current page. */
  predicate LinkMatches(linkPath: string, currentPage: string)
  {
    linkPath == currentPage || (currentPage == [] && linkPath == "index.html")
  }

  /** The current page is never empty, so only the first disjunct can ever hold. */
  lemma EmptyPageDisjunctIsDead(linkPath: string, pathname: string)
    ensures LinkMatches(linkPath, PagePath.CurrentPage(pathname)) <==> linkPath == PagePath.CurrentPage(pathname)
  {
  }

  predicate IsActivePage(l: NavLink, pathname: string)
  {
    LinkMatches(PagePath.LastSegment(l.href), PagePath.CurrentPage(pathname))
  }

  /** `forEach` over the links: a link gains `active` exactly when the last segment of its
      `href` is the current page; nothing is removed. */
  method MarkActivePage(links: seq<NavLink>, pathname: string)
    modifies links
    ensures forall l :: l in links ==>
      l.classes == old(l.classes) + (if IsActivePage(l, pathname) then {"active"} else {})
  {
    var currentPage := PagePath.CurrentPage(pathname);
    var i := 0;
    while i < |links|
      invariant 0 <= i <= |links|
      invariant forall l :: l in links ==>
        l.classes == old(l.classes) + (if l in links[..i] && IsActivePage(l, pathname) then {"active"} else {})
    {
      var link := links[i];
      var linkPath := PagePath.LastSegment(link.href);
      if linkPath == currentPage || (currentPage == [] && linkPath == "index.html") {
        link.classes := link.classes + {"active"};
      }
      i := i + 1;
    }
  }

  /** Initialisation: with the hamburger or the menu missing nothing is installed and no
      link is marked; otherwise the handlers are installed and the current page's link
      is marked `active`. */
  method Initialise(hamburger: Hamburger?, navMenu: NavMenu?, links: seq<NavLink>, pathname: string)
    returns (menu: Menu?)
    modifies links
    ensures (menu != null) <==> (hamburger != null && navMenu != null)
    ensures menu != null ==> menu.hamburger == hamburger && menu.navMenu == navMenu
    ensures menu == null ==> forall l :: l in links ==> l.classes == old(l.classes)
    ensures menu != null ==> forall l :: l in links ==>
      l.classes == old(l.classes) + (if IsActivePage(l, pathname) then {"active"} else {})
  {
    if hamburger == null || navMenu == null {
      return null;
    }
    menu := new Menu(hamburger, navMenu);
    MarkActivePage(links, pathname);
  }
}
