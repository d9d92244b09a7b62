/**
 * The client-side logic of the sign-in page (login / register / reset tabs):
 * the password-strength indicator, the checks made before a registration is
 * submitted, the show-password toggles and tab switching. The page's React state
 * is modelled as a plain record; each handler is a function from the old state to
 * the new one, except the strength score, which the page builds with a counter.
 */
module Auth {
  import opened Wrappers

  // ---------------------------------------------------------------- page state

  datatype Tab = LoginTab | RegisterTab | ResetTab

  /** The two forms that have a password field with a show/hide button. */
  datatype Form = LoginForm | RegisterForm

  /** `{ login: bool, register: bool }`; both hidden initially. */
  datatype ShowPassword = ShowPassword(login: bool, register: bool)

  /** The banner under the forms: `{ text, type }`; empty text means nothing is shown. */
  datatype Message = Message(text: string, kind: string)

  /** One row of the strength table: the label and the CSS class it is shown with. */
  datatype StrengthLevel = StrengthLevel(text: string, cssClass: string)

  datatype PageState = PageState(
    activeTab: Tab,
    message: Message,
    strength: Option<StrengthLevel>,   // None is the initial '' (no indicator)
    showPassword: ShowPassword)

  const NoMessage := Message("", "")

  const InitialState := PageState(LoginTab, NoMessage, None, ShowPassword(false, false))

  /** The page opens on the login tab with no banner, no strength indicator and both
      passwords hidden. */
  lemma InitialStateShowsNothing(f: Form)
    ensures InitialState.activeTab == LoginTab
    ensures InitialState.message.text == [] && InitialState.strength == None
    ensures !Shown(InitialState.showPassword, f)
  {
  }

  // ----------------------------------------------------------- switchTab (28-31)

  /** Switching tab always clears the banner, whatever tab was active. */
  function SwitchTab(s: PageState, tab: Tab): (r: PageState)
    ensures r.activeTab == tab
    ensures r.message.text == [] && r.message.kind == []
    ensures r.strength == s.strength && r.showPassword == s.showPassword
  {
    s.(activeTab := tab, message := NoMessage)
  }

  /** The result does not depend on the previous tab or banner, so switching twice
      to the same tab is the same as switching once. */
  lemma SwitchTabForgetsTabAndMessage(s: PageState, tab: Tab, other: Tab, m: Message)
    ensures SwitchTab(s.(activeTab := other, message := m), tab) == SwitchTab(s, tab)
    ensures SwitchTab(SwitchTab(s, tab), tab) == SwitchTab(s, tab)
  {
  }

  // ------------------------------------------------------ togglePassword (34-39)

  function Shown(sp: ShowPassword, f: Form): bool
  {
    match f
    case LoginForm => sp.login
    case RegisterForm => sp.register
  }

  /** `{...prev, [form]: !prev[form]}`: flips the flag of one form only. */
  function TogglePassword(s: PageState, f: Form): (r: PageState)
    ensures Shown(r.showPassword, f) == !Shown(s.showPassword, f)
    ensures forall g :: g != f ==> Shown(r.showPassword, g) == Shown(s.showPassword, g)
    ensures r.activeTab == s.activeTab && r.message == s.message && r.strength == s.strength
  {
    var sp := s.showPassword;
    var flipped := match f
      case LoginForm => sp.(login := !sp.login)
      case RegisterForm => sp.(register := !sp.register);
    s.(showPassword := flipped)
  }

  lemma TogglePasswordTwice(s: PageState, f: Form)
    ensures TogglePassword(TogglePassword(s, f), f) == s
  {
  }

  // ----------------------------------------------- checkPasswordStrength (42-65)

  predicate IsLower(c: char) { 'a' <= c <= 'z' }
  predicate IsUpper(c: char) { 'A' <= c <= 'Z' }
  predicate IsDigit(c: char) { '0' <= c <= '9' }
  predicate IsSpecial(c: char) { c == '$' || c == '@' || c == '#' || c == '&' || c == '!' }

  /** `password.match(/[a-z]+/)` is non-null: some character is in the class. */
  predicate HasLower(p: string) { exists i | 0 <= i < |p| :: IsLower(p[i]) }
  predicate HasUpper(p: string) { exists i | 0 <= i < |p| :: IsUpper(p[i]) }
  predicate HasDigit(p: string) { exists i | 0 <= i < |p| :: IsDigit(p[i]) }
  predicate HasSpecial(p: string) { exists i | 0 <= i < |p| :: IsSpecial(p[i]) }

  /** The five independent criteria, in the order the page tests them. */
  function Criteria(p: string): (c: seq<bool>)
    ensures |c| == 5
  {
    [|p| >= 8, HasLower(p), HasUpper(p), HasDigit(p), HasSpecial(p)]
  }

  /** How many of the flags are set. */
  function CountSatisfied(flags: seq<bool>): nat
  {
    if flags == [] then 0
    else (if flags[0] then 1 else 0) + CountSatisfied(flags[1..])
  }

  /** The specification of the score: the number of criteria the password meets. */
  function StrengthScore(p: string): nat
  {
    CountSatisfied(Criteria(p))
  }

  /** `let strength = 0; if (…) strength++; …` — one test and increment per criterion. */
  method PasswordScore(password: string) returns (strength: nat)
    ensures strength == StrengthScore(password)
    ensures strength <= 5
    ensures strength == 0 <==> (forall k :: 0 <= k < 5 ==> !Criteria(password)[k])
  {
    strength := 0;
    if |password| >= 8 { strength := strength + 1; }
    if HasLower(password) { strength := strength + 1; }
    if HasUpper(password) { strength := strength + 1; }
    if HasDigit(password) { strength := strength + 1; }
    if HasSpecial(password) { strength := strength + 1; }
    CountFiveFlags(Criteria(password));
  }

  /** The count of five flags unrolled. */
  lemma CountFiveFlags(flags: seq<bool>)
    requires |flags| == 5
    ensures CountSatisfied(flags) ==
      (if flags[0] then 1 else 0) + (if flags[1] then 1 else 0) + (if flags[2] then 1 else 0)
      + (if flags[3] then 1 else 0) + (if flags[4] then 1 else 0)
  {
    assert flags[4..][1..] == [];
    assert CountSatisfied(flags[4..]) == (if flags[4] then 1 else 0);
    assert flags[3..][1..] == flags[4..];
    assert CountSatisfied(flags[3..]) == (if flags[3] then 1 else 0) + CountSatisfied(flags[4..]);
    assert flags[2..][1..] == flags[3..];
    assert CountSatisfied(flags[2..]) == (if flags[2] then 1 else 0) + CountSatisfied(flags[3..]);
    assert flags[1..][1..] == flags[2..];
    assert CountSatisfied(flags[1..]) == (if flags[1] then 1 else 0) + CountSatisfied(flags[2..]);
  }

  /** At most one point per criterion. */
  lemma {:induction false} CountSatisfiedBound(flags: seq<bool>)
    ensures CountSatisfied(flags) <= |flags|
    ensures CountSatisfied(flags) == 0 <==> (forall k :: 0 <= k < |flags| ==> !flags[k])
  {
    if flags != [] {
      CountSatisfiedBound(flags[1..]);
      assert forall k :: 1 <= k < |flags| ==> flags[k] == flags[1..][k - 1];
    }
  }

  lemma ScoreBounds(p: string)
    ensures 0 <= StrengthScore(p) <= 5
    ensures StrengthScore(p) == 0 <==> (forall k :: 0 <= k < 5 ==> !Criteria(p)[k])
  {
    CountSatisfiedBound(Criteria(p));
  }

  /** Meeting every criterion another password meets (and maybe more) never scores less. */
  lemma {:induction false} CountSatisfiedMonotone(a: seq<bool>, b: seq<bool>)
    requires |a| == |b|
    requires forall k :: 0 <= k < |a| && a[k] ==> b[k]
    ensures CountSatisfied(a) <= CountSatisfied(b)
  {
    if a != [] {
      assert forall k :: 0 <= k < |a| - 1 && a[1..][k] ==> b[1..][k] by {
        forall k | 0 <= k < |a| - 1 && a[1..][k] ensures b[1..][k] {
          assert a[k + 1] == a[1..][k];
        }
      }
      CountSatisfiedMonotone(a[1..], b[1..]);
    }
  }

  /** `const strengthLevels = { 1: …, 5: … }`. */
  const StrengthLevels: map<int, StrengthLevel> := map[
    1 := StrengthLevel("⚠️ Weak password", "strength-weak"),
    2 := StrengthLevel("🔶 Fair password", "strength-fair"),
    3 := StrengthLevel("✓ Good password", "strength-good"),
    4 := StrengthLevel("✓✓ Strong password", "strength-strong"),
    5 := StrengthLevel("✓✓ Very strong password", "strength-strong")]

  const Weak := StrengthLevels[1]

  /** The key actually looked up: `strengthLevels[strength] || strengthLevels[1]`. */
  function LevelKey(score: int): (key: int)
    ensures key in StrengthLevels
    ensures 1 <= key <= 5
    ensures 1 <= score <= 5 ==> key == score
    ensures (score < 1 || score > 5) ==> key == 1
  {
    if score in StrengthLevels then score else 1
  }

  /** The table row shown for a score: always one of the five rows; the "strong" class
      exactly for the two top keys. */
  function LevelFor(score: int): (level: StrengthLevel)
    ensures level in StrengthLevels.Values
    ensures level == StrengthLevels[LevelKey(score)]
    ensures level.cssClass == "strength-strong" <==> LevelKey(score) >= 4
  {
    StrengthLevels[LevelKey(score)]
  }

  /** The indicator the page sets for a password: none for the empty password (no
      scoring is done), otherwise the table row for the score. */
  method CheckPasswordStrength(s: PageState, password: string) returns (r: PageState)
    ensures r.activeTab == s.activeTab && r.message == s.message && r.showPassword == s.showPassword
    ensures password == [] ==> r.strength == None
    ensures password != [] ==> r.strength == Some(LevelFor(StrengthScore(password)))
    ensures r.strength == None || r.strength.value in StrengthLevels.Values
  {
    if password == [] {
      r := s.(strength := None);
      return;
    }
    var strength := PasswordScore(password);
    var level := LevelFor(strength);
    r := s.(strength := Some(level));
  }

  /** A non-empty password meeting no criterion falls back to the "Weak" row, the same
      row as a password meeting exactly one. */
  lemma NoCriterionIsWeak(p: string)
    requires p != []
    requires forall k :: 0 <= k < 5 ==> !Criteria(p)[k]
    ensures StrengthScore(p) == 0
    ensures LevelFor(StrengthScore(p)) == Weak == LevelFor(1)
  {
    ScoreBounds(p);
  }

  lemma PercentSignsAreWeak()
    ensures LevelFor(StrengthScore("%%%")) == Weak
  {
  }

  /** Adding criteria never lowers the level shown. */
  lemma MoreCriteriaNeverWeaker(p: string, q: string)
    requires forall k :: 0 <= k < 5 && Criteria(p)[k] ==> Criteria(q)[k]
    ensures StrengthScore(p) <= StrengthScore(q)
    ensures LevelKey(StrengthScore(p)) <= LevelKey(StrengthScore(q))
  {
    CountSatisfiedMonotone(Criteria(p), Criteria(q));
    ScoreBounds(q);
  }

  // ------------------------------------------ handleRegister, checks (100-111)

  datatype RegisterData = RegisterData(
    username: string,
    email: string,
    password: string,
    confirmPassword: string,
    division: string,
    agreeToTerms: bool)

  const MismatchMessage := Message("Passwords do not match!", "error")
  const TermsMessage := Message("Please agree to the terms and conditions", "error")

  /** What the two guards decide: reject with a banner, or go on to the request. */
  datatype RegisterCheck = Rejected(message: Message) | Submit

  /** The password comparison comes first; each failure returns before the request,
      so when both fail the mismatch banner is the one shown. */
  function RegisterPrecheck(d: RegisterData): (r: RegisterCheck)
    ensures r == Submit <==> d.password == d.confirmPassword && d.agreeToTerms
    ensures d.password != d.confirmPassword ==> r == Rejected(MismatchMessage)
    ensures d.password == d.confirmPassword && !d.agreeToTerms ==> r == Rejected(TermsMessage)
  {
    if d.password != d.confirmPassword then Rejected(MismatchMessage)
    else if !d.agreeToTerms then Rejected(TermsMessage)
    else Submit
  }

  /** The synchronous prefix of `handleRegister`: a rejection shows its banner and
      stops; otherwise the state is untouched and the request would be sent. */
  function HandleRegisterChecks(s: PageState, d: RegisterData): (r: (PageState, bool))
    ensures r.1 <==> d.password == d.confirmPassword && d.agreeToTerms
    ensures r.1 ==> r.0 == s
    ensures !r.1 ==> r.0 == s.(message := RegisterPrecheck(d).message)
    ensures !r.1 ==> r.0.message.kind == "error"
  {
    match RegisterPrecheck(d)
    case Rejected(m) => (s.(message := m), false)
    case Submit => (s, true)
  }
}
