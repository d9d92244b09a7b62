# King of the Pundits — client-side logic in Dafny

A model of the behaviour of the "King of the Pundits" fan website's scripts:

- the sign-in page (`pages/auth.js`): the password-strength indicator, the two checks
  made before a registration request is sent, the show-password toggles and tab
  switching (module `Auth`);
- the site-wide script (`js/main.js`): the navigation toggle and its
  close-on-outside-click handler, the league-table statistic toggles, the back-to-top
  button's visibility rule and the current-page highlight (module `MainScript`);
- the minimal mobile navigation (`js/mobile-nav.js`): toggle, overlay and body scroll
  lock kept in step, overlay created only when absent (module `MobileNav`);
- the hamburger menu (`js/mobile-menu.js`): `active` on the hamburger and on the menu,
  closed by link clicks and outside clicks, and the active-page link (module
  `MobileMenu`);
- the "current page" name both navigation scripts derive from the location's pathname,
  `pathname.split('/').pop() || 'index.html'` (module `PagePath`, shared).

The sign-in page's React state is a record (`Auth.PageState`) and its handlers are
functions from state to state; the strength score, which the page accumulates in a
counter, is a method proved equal to the number of satisfied criteria. Every DOM
element a navigation script changes is an object whose class flags and `aria-expanded`
attribute are fields. The click handlers of the navigation toggles are methods on a
controller object, proved to move the elements' joint state exactly as a pure
transition function does, and the invariants (flags agree, close is idempotent, two
toggles restore) are lemmas about those functions; the statistic toggle, the
back-to-top check and the two link loops state their effect on the elements directly.
A click's target is an enumeration (in the toggle, in the menu, elsewhere, …); "handlers are installed only when the elements exist" is an `Initialise`
/ `Install…` method that returns no controller, and changes nothing, when one is
missing.

## Model

| member | source | states |
|---|---|---|
| PagePath.Split | js/main.js:68 | `split('/')` always yields at least one part and no part contains the separator |
| PagePath.JoinSplit | js/main.js:68 | joining the parts of a split with the separator gives back the original text (round trip) |
| PagePath.LastSegmentIsTextAfterLastSlash | js/main.js:68 | `split('/').pop()` is a suffix of the path with no '/', and is either the whole path or preceded by a '/' |
| PagePath.LastSegmentAfterSlash | js/mobile-menu.js:29 | for any prefix, the last segment of `prefix/name` is `name` when `name` has no '/' |
| PagePath.CurrentPage | js/main.js:68 | the current page is the last segment, or `index.html` when that is empty; it is never empty and never holds '/' |
| PagePath.CurrentPageExamples | js/mobile-menu.js:29 | "/" and "" give `index.html`; "/a/b.html" gives `b.html` |
| Auth.InitialStateShowsNothing | pages/auth.js:7-13 | the page starts on the login tab with no message, no strength indicator and both passwords hidden |
| Auth.SwitchTab | pages/auth.js:28-31 | the active tab becomes the requested one, the message text and type are always emptied, nothing else changes |
| Auth.SwitchTabForgetsTabAndMessage | pages/auth.js:28-31 | the result depends neither on the previous tab nor on the previous message; switching is idempotent |
| Auth.TogglePassword | pages/auth.js:34-39 | only the chosen form's show-password flag flips; the other form's flag and the rest of the state are unchanged |
| Auth.TogglePasswordTwice | pages/auth.js:34-39 | toggling the same form twice restores the original state |
| Auth.Criteria | pages/auth.js:48-53 | exactly five independent criteria are tested |
| Auth.PasswordScore | pages/auth.js:48-53 | the counter built by the five increments equals the number of satisfied criteria, is at most 5, and is 0 exactly when no criterion holds |
| Auth.CountSatisfiedBound | pages/auth.js:48-53 | a count of satisfied flags is at most the number of flags, and 0 exactly when none is set |
| Auth.ScoreBounds | pages/auth.js:48-53 | every password scores between 0 and 5, and 0 exactly when it meets no criterion |
| Auth.CountSatisfiedMonotone | pages/auth.js:48-53 | satisfying a superset of the criteria never gives a smaller count |
| Auth.LevelKey | pages/auth.js:63 | the table key looked up is the score for scores 1..5 and falls back to 1 otherwise (score 0) |
| Auth.LevelFor | pages/auth.js:55-63 | the level shown is always one of the five table rows; its class is `strength-strong` exactly for keys 4 and 5 |
| Auth.CheckPasswordStrength | pages/auth.js:42-65 | an empty password clears the indicator without scoring; any other gets the table row of its score; other state untouched |
| Auth.NoCriterionIsWeak | pages/auth.js:55-63 | a non-empty password meeting no criterion scores 0 and gets the same "Weak" row as a score of 1 |
| Auth.PercentSignsAreWeak | pages/auth.js:55-63 | "%%%" is shown as "Weak" |
| Auth.MoreCriteriaNeverWeaker | pages/auth.js:48-63 | meeting more criteria never lowers the score nor the level shown |
| Auth.RegisterPrecheck | pages/auth.js:103-111 | registration proceeds iff the passwords match and the terms are accepted; a mismatch is reported first, so it wins when both checks fail |
| Auth.HandleRegisterChecks | pages/auth.js:100-113 | a failed check shows its error message and sends nothing; passing both leaves the state untouched before the request |
| MainScript.ToggleClickFlips | js/main.js:12-17 | a toggle click flips `nav-open` and the read value of `aria-expanded`; an absent attribute becomes "true" |
| MainScript.DocumentClickClosesOnlyOutside | js/main.js:20-25 | the outside-click handler changes something only for an open menu and a click outside menu and toggle, then closes it; it is idempotent |
| MainScript.ClickPreservesAgreement | js/main.js:12-25 | if `aria-expanded` is "true" exactly when the menu has `nav-open`, this still holds after any click |
| MainScript.NavToggle.ToggleClicked | js/main.js:12-17 | the toggle handler moves the elements' state as the toggle transition says |
| MainScript.NavToggle.DocumentClicked | js/main.js:20-25 | the document handler moves the elements' state as the outside-click transition says |
| MainScript.NavToggle.Click | js/main.js:12-25 | a toggle click runs only the toggle handler (propagation stopped), any other click only the document handler; agreement is preserved |
| MainScript.InstallNavToggle | js/main.js:8-11 | a controller (and so a handler) exists exactly when both the toggle and the menu exist |
| MainScript.StatToggle.Clicked | js/main.js:32-41 | with no target row nothing changes; with one, `aria-expanded` and the row's `hidden` both flip, so their agreement is kept |
| MainScript.BackToTopThreshold | js/main.js:48-54 | the button is hidden at exactly 300 and shown for any larger scroll position, monotonically |
| MainScript.BackToTop.ToggleVisibility | js/main.js:48-57 | after a check the button's `visible` class holds exactly when `scrollY > 300`, whatever it was before |
| MainScript.HighlightCurrentPage | js/main.js:68-76 | each link gains `current-page` iff its whole `href` equals the current page; no class is removed, other links keep their classes |
| MobileNav.ToggleFlipsList | js/mobile-nav.js:21-32 | the toggle decides from the list's class alone and sets list, overlay and body flags to its negation |
| MobileNav.ClickKeepsConsistent | js/mobile-nav.js:21-39 | "list open == overlay open == body no-scroll" is preserved by every click |
| MobileNav.HandlersEstablishConsistency | js/mobile-nav.js:21-39 | from any state, even an inconsistent one, a toggle click and an overlay click leave the three flags consistent |
| MobileNav.ToggleTwiceRestores | js/mobile-nav.js:21-32 | two toggles from a consistent state restore it |
| MobileNav.OverlayClickIdempotent | js/mobile-nav.js:35-39 | an overlay click clears the list's and the overlay's `nav-open` and the body's `no-scroll`, and a second one changes nothing |
| MobileNav.OtherClicksChangeNothing | js/mobile-nav.js:41-42 | link clicks and other clicks have no handler and leave the state as it was |
| MobileNav.NavController.ToggleClicked | js/mobile-nav.js:21-32 | the toggle handler moves the three elements' flags as the toggle transition says |
| MobileNav.NavController.OverlayClicked | js/mobile-nav.js:35-39 | the overlay handler clears all three flags |
| MobileNav.NavController.Click | js/mobile-nav.js:21-42 | a click is routed to the handler of its target, if any, and keeps the flags consistent |
| MobileNav.Initialise | js/mobile-nav.js:10-18 | with the toggle or the list missing nothing is installed or created; an existing overlay is reused, else exactly one closed overlay is created and appended to the body |
| MobileMenu.HamburgerClickFlips | js/mobile-menu.js:7-10 | a hamburger click flips both `active` flags and is not undone by the outside handler; two clicks restore the state |
| MobileMenu.ClosingClicks | js/mobile-menu.js:13-25 | a link click or a click outside both elements clears both flags, idempotently; a click inside the menu off any link changes nothing |
| MobileMenu.ClickPreservesAgreement | js/mobile-menu.js:7-25 | if the hamburger and menu flags agree before a click they agree after it |
| MobileMenu.Menu.HamburgerClicked | js/mobile-menu.js:7-10 | the hamburger handler toggles `active` on both elements |
| MobileMenu.Menu.LinkClicked | js/mobile-menu.js:13-17 | the link handler removes `active` from both elements |
| MobileMenu.Menu.DocumentClicked | js/mobile-menu.js:21-25 | the document handler clears both flags only for a click outside both elements |
| MobileMenu.Menu.Click | js/mobile-menu.js:7-25 | a click runs the link, hamburger and document handlers in bubbling order, and keeps the flags in agreement |
| MobileMenu.EmptyPageDisjunctIsDead | js/mobile-menu.js:29-33 | the current page is never empty, so the `currentPage === ''` disjunct never holds and a link matches iff its last segment is the current page |
| MobileMenu.MarkActivePage | js/mobile-menu.js:30-35 | each link gains `active` iff the last segment of its `href` matches the current page; nothing is removed |
| MobileMenu.Initialise | js/mobile-menu.js:6-36 | with the hamburger or the menu missing nothing is installed and no link marked; otherwise the current page's links are marked `active` |

## Left out

- The `fetch` requests of login, registration and password reset, and their fallbacks that report success when the request fails (pages/auth.js:79-96, 115-132, 141-158): network I/O with no logic to state; `Auth.HandleRegisterChecks` stops at the point the request would be sent.
- `handleLogin` and `handleReset`: they consist only of such a request and its messages.
- Timers: the message auto-clear after 5000 ms, the delayed redirect and the delayed tab switch.
- The JSX rendering, the React hooks machinery and the form field updates (pages/auth.js:161-464); the page state is a plain record.
- Auth.TogglePassword: the form is an enumeration of the two forms the page passes ('login', 'register'); `togglePassword` called with any other key would add that key, which no caller does.
- Auth.SwitchTab: the tab is an enumeration of the three tabs the page passes ('login', 'register', 'reset').
- Auth.PasswordScore: the length criterion counts characters, not UTF-16 code units, and the character classes are ASCII ranges.
- DOM querying, `DOMContentLoaded` wiring and the geometry of the document: a click's target is given as an enumeration of where it lands, and the order in which handlers see a bubbling click is fixed as target, then hamburger, then document.
- MobileMenu.MarkActivePage: every `.nav-link` is assumed to carry an `href`; for a link without one, `getAttribute('href').split` throws, which aborts the loop so later links are never marked — that error path is not modelled.
- In `js/mobile-nav.js` the toggle button itself is a flag of `MobileNav.Initialise` (no handler changes it), and the body is assumed present.
- `window.scrollTo` with smooth scrolling on the back-to-top button, and `console.log` messages.
- MainScript.BackToTop.ToggleVisibility: the scroll position is a real number; the page-load call and the scroll listener are the same call.
- Escape key, window resize and focus trapping: these files have no such handlers.
