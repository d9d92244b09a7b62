/**
 * The site-wide script: the navigation toggle with its close-on-outside-click
 * handler, the league-table statistic toggles, the back-to-top button and the
 * current-page highlight in the navigation list. Each DOM element the script
 * touches is an object whose class flags and attributes are fields.
 */
module MainScript {
  import opened Wrappers
  import PagePath

  // ------------------------------------------------ navigation toggle (8-26)

  /** Where a click lands: in the toggle button, in the menu, or anywhere else. */
  datatype Target = InToggle | InMenu | Elsewhere

  /** The toggle's `aria-expanded` attribute (absent, or any text) and whether the
      menu has the class `nav-open`. */
  datatype NavState = NavState(ariaExpanded: Option<string>, navOpen: bool)

  /** `getAttribute('aria-expanded') === 'true'`: an absent attribute reads as false. */
  predicate Expanded(s: NavState)
  {
    s.ariaExpanded == Some("true")
  }

  /** The accessibility attribute tells the truth about the menu. */
  predicate Agrees(s: NavState)
  {
    Expanded(s) == s.navOpen
  }

  /** The toggle's click handler: writes the negation of what it read, and flips the class. */
  function AfterToggleClick(s: NavState): NavState
  {
    NavState(Some(if Expanded(s) then "false" else "true"), !s.navOpen)
  }

  /** The document's click handler: closes an open menu when the click is outside both
      the menu and the toggle. */
  function AfterDocumentClick(s: NavState, t: Target): NavState
  {
    if s.navOpen && t == Elsewhere then NavState(Some("false"), false) else s
  }

  /** A click on the toggle stops propagating, so only the toggle's handler runs; any
      other click reaches only the document's. */
  function AfterClick(s: NavState, t: Target): NavState
  {
    if t == InToggle then AfterToggleClick(s) else AfterDocumentClick(s, t)
  }

  /** Both handlers keep `aria-expanded` in step with the menu's class. */
  lemma ClickPreservesAgreement(s: NavState, t: Target)
    requires Agrees(s)
    ensures Agrees(AfterClick(s, t))
  {
  }

  /** The toggle writes "true" or "false" and always flips the menu; from an absent
      attribute on a closed menu the first click opens it with "true". */
  lemma ToggleClickFlips(s: NavState)
    ensures AfterToggleClick(s).navOpen == !s.navOpen
    ensures Expanded(AfterToggleClick(s)) == !Expanded(s)
    ensures s.ariaExpanded == None ==> AfterToggleClick(s).ariaExpanded == Some("true")
  {
  }

  /** The outside-click handler changes something only for an open menu and a click
      outside both elements; then the menu is closed, and a second such click is a no-op. */
  lemma DocumentClickClosesOnlyOutside(s: NavState, t: Target)
    ensures AfterDocumentClick(s, t) != s ==> s.navOpen && t == Elsewhere
    ensures s.navOpen && t == Elsewhere ==> !AfterDocumentClick(s, t).navOpen
    ensures AfterDocumentClick(AfterDocumentClick(s, t), t) == AfterDocumentClick(s, t)
  {
  }

  class ToggleButton {
    var ariaExpanded: Option<string>
    constructor (ariaExpanded: Option<string>)
      ensures this.ariaExpanded == ariaExpanded
    {
      this.ariaExpanded := ariaExpanded;
    }
  }

  class Menu {
    var navOpen: bool
    constructor (navOpen: bool)
      ensures this.navOpen == navOpen
    {
      this.navOpen := navOpen;
    }
  }

  /** The pair of elements whose handlers were installed. */
  class NavToggle {
    const toggle: ToggleButton
    const menu: Menu

    constructor (toggle: ToggleButton, menu: Menu)
      ensures this.toggle == toggle && this.menu == menu
    {
      this.toggle := toggle;
      this.menu := menu;
    }

    function State(): NavState
      reads toggle, menu
    {
      NavState(toggle.ariaExpanded, menu.navOpen)
    }

    method ToggleClicked()
      modifies toggle, menu
      ensures State() == AfterToggleClick(old(State()))
    {
      var isExpanded := toggle.ariaExpanded == Some("true");
      toggle.ariaExpanded := Some(if !isExpanded then "true" else "false");
      menu.navOpen := !menu.navOpen;
    }

    method DocumentClicked(t: Target)
      modifies toggle, menu
      ensures State() == AfterDocumentClick(old(State()), t)
    {
      if menu.navOpen && t != InMenu && t != InToggle {
        menu.navOpen := false;
        toggle.ariaExpanded := Some("false");
      }
    }

    /** One click, routed to the handlers that see it. */
    method Click(t: Target)
      modifies toggle, menu
      ensures State() == AfterClick(old(State()), t)
      ensures old(Agrees(State())) ==> Agrees(State())
    {
      if t == InToggle {
        ToggleClicked();
      } else {
        DocumentClicked(t);
      }
    }
  }

  /** Handlers are installed only when both elements exist; otherwise there is no
      controller, and no click can change the navigation state. */
  method InstallNavToggle(toggle: ToggleButton?, menu: Menu?) returns (nav: NavToggle?)
    ensures (nav != null) <==> (toggle != null && menu != null)
    ensures nav != null ==> nav.toggle == toggle && nav.menu == menu
  {
    if toggle != null && menu != null {
      nav := new NavToggle(toggle, menu);
    } else {
      nav := null;
    }
  }

  // ------------------------------------------ statistic row toggles (30-42)

  /** The table row a statistic toggle shows and hides. */
  class StatRow {
    var hidden: bool
    constructor (hidden: bool)
      ensures this.hidden == hidden
    {
      this.hidden := hidden;
    }
  }

  class StatToggle {
    var ariaExpanded: Option<string>

    constructor (ariaExpanded: Option<string>)
      ensures this.ariaExpanded == ariaExpanded
    {
      this.ariaExpanded := ariaExpanded;
    }

    predicate IsExpanded()
      reads this
    {
      ariaExpanded == Some("true")
    }

    /** The click handler, given the row `document.getElementById(data-target)` found
        (null when there is none): without a row nothing changes; with one, both the
        attribute and the row's `hidden` class flip, so if they agreed they still agree. */
    method Clicked(row: StatRow?)
      modifies this, row
      ensures row == null ==> ariaExpanded == old(ariaExpanded)
      ensures row != null ==> ariaExpanded == Some(if old(IsExpanded()) then "false" else "true")
      ensures row != null ==> row.hidden == !old(row.hidden)
      ensures row != null && old(IsExpanded() == !row.hidden) ==> IsExpanded() == !row.hidden
    {
      var isExpanded := ariaExpanded == Some("true");
      if row != null {
        ariaExpanded := Some(if !isExpanded then "true" else "false");
        row.hidden := !row.hidden;
      }
    }
  }

  // --------------------------------------------------- back to top (46-57)

  /** The visibility rule: strictly more than 300 pixels scrolled. */
  function BackToTopShown(scrollY: real): bool
  {
    scrollY > 300.0
  }

  /** The button stays hidden up to and including 300 and, once shown, stays shown
      further down the page. */
  lemma BackToTopThreshold(y: real, z: real)
    ensures !BackToTopShown(300.0) && !BackToTopShown(0.0)
    ensures y <= z && BackToTopShown(y) ==> BackToTopShown(z)
    ensures y > 300.0 ==> BackToTopShown(y)
  {
  }

  class BackToTop {
    var visible: bool

    constructor (visible: bool)
      ensures this.visible == visible
    {
      this.visible := visible;
    }

    /** Run on load and on every scroll: the class follows the position only, not
        what it was before. */
    method ToggleVisibility(scrollY: real)
      modifies this
      ensures visible == BackToTopShown(scrollY)
    {
      if scrollY > 300.0 {
        visible := true;
      } else {
        visible := false;
      }
    }
  }

  // --------------------------------------- current-page highlight (68-76)

  /** An `<a>` of the navigation list: its `href` attribute (possibly absent) and its
      class list. */
  class Link {
    const href: Option<string>
    var classes: set<string>

    constructor (href: Option<string>, classes: set<string>)
      ensures this.href == href && this.classes == classes
    {
      this.href := href;
      this.classes := classes;
    }
  }

  /** A link is the current page when its whole `href` equals the current page name. */
  predicate IsCurrent(l: Link, pathname: string)
  {
    l.href == Some(PagePath.CurrentPage(pathname))
  }

  /** `navLinks.forEach(...)`: every link whose `href` equals the current page gains
      `current-page`; no class is removed and non-matching links are left as they are. */
  method HighlightCurrentPage(links: seq<Link>, pathname: string)
    modifies links
    ensures forall l :: l in links ==>
      l.classes == old(l.classes) + (if IsCurrent(l, pathname) then {"current-page"} else {})
  {
    var currentPage := PagePath.CurrentPage(pathname);
    var i := 0;
    while i < |links|
      invariant 0 <= i <= |links|
      invariant forall l :: l in links ==>
        l.classes == old(l.classes) + (if l in links[..i] && IsCurrent(l, pathname) then {"current-page"} else {})
    {
      var link := links[i];
      if link.href == Some(currentPage) {
        link.classes := link.classes + {"current-page"};
      }
      i := i + 1;
    }
  }
}
