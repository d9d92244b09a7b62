/**
 * The minimal mobile navigation: a toggle button opens and closes the navigation
 * list together with a dimming overlay and the page's scroll lock; a click on the
 * overlay closes all three. Links get no handler at all.
 */
module MobileNav {

  /** Where a click lands. */
  datatype Target = OnToggle | OnOverlay | OnLink | Elsewhere

  /** The three class flags: `nav-open` on the list, `nav-open` on the overlay,
      `no-scroll` on the body. */
  datatype NavState = NavState(listOpen: bool, overlayOpen: bool, noScroll: bool)

  /** All three flags say the same thing. */
  predicate Consistent(s: NavState)
  {
    s.listOpen == s.overlayOpen && s.overlayOpen == s.noScroll
  }

  const AllClosed := NavState(false, false, false)

  /** The toggle decides from the list's class alone and sets all three flags to its
      negation. */
  function AfterToggle(s: NavState): NavState
  {
    if s.listOpen then AllClosed else NavState(true, true, true)
  }

  /** The overlay click removes all three flags unconditionally. */
  function AfterOverlayClick(s: NavState): NavState
  {
    AllClosed
  }

  function AfterClick(s: NavState, t: Target): NavState
  {
    match t
    case OnToggle => AfterToggle(s)
    case OnOverlay => AfterOverlayClick(s)
    case OnLink => s
    case Elsewhere => s
  }

  /** Consistency is an invariant of every click. */
  lemma ClickKeepsConsistent(s: NavState, t: Target)
    requires Consistent(s)
    ensures Consistent(AfterClick(s, t))
  {
  }

  /** Whatever the flags were, the toggle and the overlay handlers leave them consistent. */
  lemma HandlersEstablishConsistency(s: NavState)
    ensures Consistent(AfterToggle(s)) && Consistent(AfterOverlayClick(s))
    ensures Consistent(AfterClick(s, OnToggle)) && Consistent(AfterClick(s, OnOverlay))
  {
  }

  /** The toggle opens exactly when the list was closed. */
  lemma ToggleFlipsList(s: NavState)
    ensures AfterToggle(s).listOpen == !s.listOpen
    ensures Consistent(AfterToggle(s))
  {
  }

  /** Two toggles from a consistent state restore it. */
  lemma ToggleTwiceRestores(s: NavState)
    requires Consistent(s)
    ensures AfterToggle(AfterToggle(s)) == s
  {
  }

  /** The overlay click clears the list's and the overlay's `nav-open` and the body's
      `no-scroll`, and a second one changes nothing. */
  lemma OverlayClickIdempotent(s: NavState)
    ensures AfterOverlayClick(s) == AllClosed
    ensures !AfterOverlayClick(s).listOpen && !AfterOverlayClick(s).overlayOpen && !AfterOverlayClick(s).noScroll
    ensures AfterOverlayClick(AfterOverlayClick(s)) == AfterOverlayClick(s)
  {
  }

  /** Link clicks and other clicks have no handler here. */
  lemma OtherClicksChangeNothing(s: NavState)
    ensures AfterClick(s, OnLink) == s && AfterClick(s, Elsewhere) == s
  {
  }

  class NavList {
    var navOpen: bool
    constructor (navOpen: bool)
      ensures this.navOpen == navOpen
    {
      this.navOpen := navOpen;
    }
  }

  class Overlay {
    var navOpen: bool
    constructor ()
      ensures !navOpen
    {
      navOpen := false;
    }
  }

  class Body {
    var noScroll: bool
    var children: seq<object>
    constructor (noScroll: bool, children: seq<object>)
      ensures this.noScroll == noScroll && this.children == children
    {
      this.noScroll := noScroll;
      this.children := children;
    }
  }

  /** The elements whose handlers were installed. */
  class NavController {
    const list: NavList
    const overlay: Overlay
    const body: Body

    constructor (list: NavList, overlay: Overlay, body: Body)
      ensures this.list == list && this.overlay == overlay && this.body == body
    {
      this.list := list;
      this.overlay := overlay;
      this.body := body;
    }

    function State(): NavState
      reads list, overlay, body
    {
      NavState(list.navOpen, overlay.navOpen, body.noScroll)
    }

    method ToggleClicked()
      modifies list, overlay, body`noScroll
      ensures State() == AfterToggle(old(State()))
    {
      var isOpen := list.navOpen;
      if isOpen {
        list.navOpen := false;
        overlay.navOpen := false;
        body.noScroll := false;
      } else {
        list.navOpen := true;
        overlay.navOpen := true;
        body.noScroll := true;
      }
    }

    method OverlayClicked()
      modifies list, overlay, body`noScroll
      ensures State() == AfterOverlayClick(old(State()))
    {
      list.navOpen := false;
      overlay.navOpen := false;
      body.noScroll := false;
    }

    /** One click, routed to the handler of the element it lands on, if any. */
    method Click(t: Target)
      modifies list, overlay, body`noScroll
      ensures State() == AfterClick(old(State()), t)
      ensures old(Consistent(State())) ==> Consistent(State())
      ensures t == OnToggle || t == OnOverlay ==> Consistent(State())
    {
      match t
      case OnToggle => ToggleClicked();
      case OnOverlay => OverlayClicked();
      case OnLink =>
      case Elsewhere =>
    }
  }

  /** Initialisation: nothing at all when the toggle or the list is missing; otherwise an
      existing overlay is reused, or exactly one new overlay is created (closed) and
      appended to the body. */
  method Initialise(hasToggle: bool, list: NavList?, body: Body, existing: Overlay?)
    returns (nav: NavController?)
    modifies body`children
    ensures (nav != null) <==> (hasToggle && list != null)
    ensures nav == null ==> body.children == old(body.children)
    ensures nav != null ==> nav.list == list && nav.body == body
    ensures nav != null && existing != null ==>
      nav.overlay == existing && body.children == old(body.children)
    ensures nav != null && existing == null ==>
      fresh(nav.overlay) && !nav.overlay.navOpen && body.children == old(body.children) + [nav.overlay]
  {
    if !hasToggle || list == null {
      return null;
    }
    var overlay := existing;
    if overlay == null {
      overlay := new Overlay();
      body.children := body.children + [overlay];
    }
    nav := new NavController(list, overlay, body);
  }
}
