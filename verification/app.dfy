/**
 * The page shell: which profile is signed in, whether the home page or the
 * dashboard is shown, and whether the login modal is open. `users` stands
 * for the mock account list and `choice` for the random pick of the demo
 * button.
 */
module App {
  import opened Base
  import opened Profile
  import opened Text
  import AuthModal
  import AuthService

  datatype View = Home | DashboardView

  datatype AppState = AppState(authOpen: bool, user: Option<UserProfile>, view: View)

  const Initial: AppState := AppState(false, None, Home)

  const DefaultBank: string := "Commercial Bank of Ethiopia (CBE)"

  /** Usernames are compared after lower-casing both sides. */
  predicate SameName(u: UserProfile, name: string) {
    Lower(u.username) == Lower(name)
  }

  predicate Known(users: seq<UserProfile>, name: string) {
    exists i :: 0 <= i < |users| && SameName(users[i], name)
  }

  /** `MOCK_USERS.find(...)`, as the position of the first case-insensitive match. */
  function FindUserIndex(users: seq<UserProfile>, name: string): (r: Option<nat>)
    ensures r.Some? ==> r.value < |users| && SameName(users[r.value], name)
    ensures r.Some? ==> forall j :: 0 <= j < r.value ==> !SameName(users[j], name)
    ensures r.None? <==> !Known(users, name)
  {
    if |users| == 0 then None
    else if SameName(users[0], name) then Some(0)
    else
      match FindUserIndex(users[1..], name)
      case None =>
        assert forall j :: 0 < j < |users| ==> users[j] == users[1..][j - 1];
        None
      case Some(k) =>
        assert users[k + 1] == users[1..][k];
        assert forall j :: 0 < j <= k ==> users[j] == users[1..][j - 1];
        Some(k + 1)
  }

  /** The profile created for a name that matches no mock account. */
  function NewUserProfile(name: string): UserProfile {
    UserProfile(name, "", "New", "User", DefaultBank, "", Stats("0 ETB", 0, 0), [], true)
  }

  /**
   * `handleLoginSuccess`: the first mock account whose username matches
   * case-insensitively becomes current; with no match a fresh new-user
   * profile keeps the name exactly as given. Either way the dashboard view
   * is selected.
   */
  function LoginSuccess(s: AppState, users: seq<UserProfile>, name: string): (r: AppState)
    ensures r.view == DashboardView && r.authOpen == s.authOpen && r.user.Some?
    ensures Known(users, name) ==>
      exists i :: 0 <= i < |users| && r.user.value == users[i] && SameName(users[i], name)
        && forall j :: 0 <= j < i ==> !SameName(users[j], name)
    ensures !Known(users, name) ==>
      var u := r.user.value;
      && u.username == name && u.phoneNumber == "" && u.firstName == "New" && u.lastName == "User"
      && u.bankName == DefaultBank && u.accountNumber == ""
      && u.stats == Stats("0 ETB", 0, 0) && u.photos == [] && u.isNewUser
  {
    match FindUserIndex(users, name)
    case Some(i) => s.(user := Some(users[i]), view := DashboardView)
    case None => s.(user := Some(NewUserProfile(name)), view := DashboardView)
  }

  /** `MOCK_USERS.filter(u => u.photos.length > 0)`. */
  function DemoUsers(users: seq<UserProfile>): (r: seq<UserProfile>)
    ensures forall k :: 0 <= k < |r| ==> |r[k].photos| > 0 && r[k] in users
    ensures forall k :: 0 <= k < |users| && |users[k].photos| > 0 ==> users[k] in r
  {
    if |users| == 0 then []
    else
      var rest := DemoUsers(users[1..]);
      assert forall k :: 0 < k < |users| ==> users[k] == users[1..][k - 1];
      if |users[0].photos| > 0 then [users[0]] + rest else rest
  }

  /**
   * `handleDemoLogin`: `choice` is the index `Math.floor(Math.random() * n)`
   * picks among the `n` accounts that have photos. With no such account the
   * pick is `undefined`, so nobody is signed in, yet the view still switches.
   */
  function DemoLogin(s: AppState, users: seq<UserProfile>, choice: nat): (r: AppState)
    requires |DemoUsers(users)| == 0 || choice < |DemoUsers(users)|
    ensures r.view == DashboardView && r.authOpen == s.authOpen
    ensures (exists k :: 0 <= k < |users| && |users[k].photos| > 0) ==>
      r.user.Some? && |r.user.value.photos| > 0 && r.user.value in users
    ensures (forall k :: 0 <= k < |users| ==> |users[k].photos| == 0) ==> r.user.None?
  {
    var demo := DemoUsers(users);
    if |demo| == 0 then s.(user := None, view := DashboardView)
    else s.(user := Some(demo[choice]), view := DashboardView)
  }

  /** Every account with photos is a possible outcome of the demo button. */
  lemma DemoCanPickAny(s: AppState, users: seq<UserProfile>, k: nat)
    requires k < |users| && |users[k].photos| > 0
    ensures exists choice: nat :: choice < |DemoUsers(users)| && DemoLogin(s, users, choice).user == Some(users[k])
  {
    var demo := DemoUsers(users);
    assert users[k] in demo;
    var c :| 0 <= c < |demo| && demo[c] == users[k];
    assert DemoLogin(s, users, c).user == Some(users[k]);
  }

  /** The first page: home, nobody signed in, the modal closed and fresh. */
  lemma InitialPage(m: AuthModal.ModalState)
    ensures !DashboardVisible(Initial) && Initial.view == Home
    ensures AuthModal.Render(Initial.authOpen, AuthModal.OnOpenChange(Initial.authOpen, m)).None?
    ensures AuthModal.OnOpenChange(Initial.authOpen, m) == AuthModal.Fresh
  {
  }

  /** `handleLogout`. */
  function Logout(s: AppState): (r: AppState)
    ensures r.user.None? && r.view == Home && r.authOpen == s.authOpen
  {
    s.(user := None, view := Home)
  }

  /** `navigateToHome`: only the view changes. */
  function NavigateHome(s: AppState): (r: AppState)
    ensures r.view == Home && r.user == s.user && r.authOpen == s.authOpen
  {
    s.(view := Home)
  }

  /** `navigateToDashboard`: only the view changes. */
  function NavigateDashboard(s: AppState): (r: AppState)
    ensures r.view == DashboardView && r.user == s.user && r.authOpen == s.authOpen
  {
    s.(view := DashboardView)
  }

  /** The dashboard replaces the landing page only in the dashboard view with a user present. */
  predicate DashboardVisible(s: AppState) {
    s.view == DashboardView && s.user.Some?
  }

  /** The hero button: to the dashboard when signed in, the demo login otherwise. */
  function HeroClick(s: AppState, users: seq<UserProfile>, choice: nat): (r: AppState)
    requires |DemoUsers(users)| == 0 || choice < |DemoUsers(users)|
    ensures s.user.Some? ==> r == NavigateDashboard(s)
    ensures s.user.None? ==> r == DemoLogin(s, users, choice)
  {
    if s.user.Some? then NavigateDashboard(s) else DemoLogin(s, users, choice)
  }

  /** How each transition decides whether the dashboard is on screen. */
  lemma Visibility(s: AppState, users: seq<UserProfile>, name: string)
    ensures DashboardVisible(LoginSuccess(s, users, name))
    ensures !DashboardVisible(Logout(s))
    ensures !DashboardVisible(NavigateHome(s))
    ensures DashboardVisible(NavigateDashboard(s)) <==> s.user.Some?
  {
  }

  /** Signing in after a logout leaves no trace of the previous session. */
  lemma NoResidueAfterLogout(s: AppState, t: AppState, users: seq<UserProfile>, name: string)
    ensures LoginSuccess(Logout(s), users, name).user == LoginSuccess(t, users, name).user
  {
  }

  /**
   * The modal's `onClose` on an open modal: the flag drops and the modal's
   * close effect, which runs when `isOpen` changes, resets it.
   */
  function CloseAuth(s: AppState, m: AuthModal.ModalState): (r: (AppState, AuthModal.ModalState))
    requires s.authOpen
    ensures !r.0.authOpen && r.0.user == s.user && r.0.view == s.view
    ensures r.1 == AuthModal.Fresh
  {
    (s.(authOpen := false), AuthModal.OnOpenChange(false, m))
  }

  /** The "Join Now" and "Verify My Account Now" buttons. */
  function OpenAuth(s: AppState): (r: AppState)
    ensures r.authOpen && r.user == s.user && r.view == s.view
  {
    s.(authOpen := true)
  }

  /**
   * Runs the modal's scheduled callbacks in order against the page state.
   * A close request on a modal that is already closed leaves the flag false
   * and, since `isOpen` does not change, does not rerun the reset effect.
   */
  function Deliver(s: AppState, m: AuthModal.ModalState, users: seq<UserProfile>, cbs: seq<AuthModal.Callback>)
    : (r: (AppState, AuthModal.ModalState))
    ensures AuthModal.CloseRequested !in cbs ==> r.1 == m && r.0.authOpen == s.authOpen
    ensures AuthModal.CloseRequested in cbs ==> !r.0.authOpen
    ensures !s.authOpen ==> r.1 == m && !r.0.authOpen
    ensures AuthModal.CloseRequested in cbs && s.authOpen ==> r.1 == AuthModal.Fresh
    ensures (exists k :: 0 <= k < |cbs| && cbs[k].LoginSucceeded?) ==> r.0.view == DashboardView && r.0.user.Some?
    ensures (forall k :: 0 <= k < |cbs| ==> !cbs[k].LoginSucceeded?) ==> r.0.user == s.user && r.0.view == s.view
    decreases |cbs|
  {
    if |cbs| == 0 then (s, m)
    else
      assert forall k :: 0 < k < |cbs| ==> cbs[k] == cbs[1..][k - 1];
      assert forall c :: c in cbs <==> c == cbs[0] || c in cbs[1..];
      match cbs[0]
      case LoginSucceeded(name) => Deliver(LoginSuccess(s, users, name), m, users, cbs[1..])
      case CloseRequested =>
        if s.authOpen then
          var c := CloseAuth(s, m);
          Deliver(c.0, c.1, users, cbs[1..])
        else
          Deliver(s, m, users, cbs[1..])
  }

  /**
   * A successful attempt, once its callbacks have run, signs in the profile
   * looked up by the username exactly as typed, shows the dashboard, and
   * leaves the modal closed and reset.
   */
  lemma SuccessfulAttemptSignsIn(s: AppState, m: AuthModal.ModalState, users: seq<UserProfile>)
    requires s.authOpen && m.step == AuthModal.LoginInput
    requires AuthModal.HandleLogin(m).state.step == AuthModal.Success
    ensures var a := AuthModal.HandleLogin(m);
      var after := Deliver(s, a.state, users, a.callbacks);
      && after.0.user == LoginSuccess(s, users, m.username).user
      && DashboardVisible(after.0)
      && !after.0.authOpen
      && after.1 == AuthModal.Fresh
      && AuthModal.Render(after.0.authOpen, after.1).None?
  {
    AuthModal.AttemptFromInput(m);
    var a := AuthModal.HandleLogin(m);
    assert a.callbacks == [AuthModal.LoginSucceeded(m.username), AuthModal.CloseRequested];
    var s1 := LoginSuccess(s, users, m.username);
    assert a.callbacks[1..] == [AuthModal.CloseRequested];
    assert a.callbacks[1..][1..] == [];
    assert Deliver(s, a.state, users, a.callbacks) == Deliver(s1, a.state, users, [AuthModal.CloseRequested]);
  }

  /**
   * The two normalisations differ: the credential check drops the first `@`,
   * the profile lookup only lower-cases. So `@messi-love1` passes the check,
   * matches no account (mock usernames carry no `@`), and signs in a fresh
   * new-user profile named `@messi-love1`, even if an account `messi-love1`
   * exists.
   */
  lemma AtPrefixedLoginGetsFreshProfile(s: AppState, users: seq<UserProfile>, phone: string)
    requires s.authOpen && AuthService.CleanPhone(phone) == AuthService.ValidPhone
    requires forall i :: 0 <= i < |users| ==> '@' !in Lower(users[i].username)
    ensures var m := AuthModal.ModalState(AuthModal.LoginInput, phone, "@messi-love1", false, None);
      var a := AuthModal.HandleLogin(m);
      && a.state.step == AuthModal.Success
      && Deliver(s, a.state, users, a.callbacks).0.user == Some(NewUserProfile("@messi-love1"))
  {
    var name := "@messi-love1";
    var m := AuthModal.ModalState(AuthModal.LoginInput, phone, name, false, None);
    AuthService.AcceptsInnerAt();
    assert AuthModal.HandleLogin(m).state.step == AuthModal.Success;
    SuccessfulAttemptSignsIn(s, m, users);
    assert Lower(name)[0] == '@';
    assert !Known(users, name) by {
      forall i | 0 <= i < |users| ensures !SameName(users[i], name) {
        assert '@' in Lower(name);
      }
    }
  }

  /** A failed attempt schedules nothing, so the page state is untouched. */
  lemma FailedAttemptChangesNothing(s: AppState, m: AuthModal.ModalState, users: seq<UserProfile>)
    requires m.step == AuthModal.LoginInput
    requires AuthModal.HandleLogin(m).state.step == AuthModal.LoginInput
    ensures Deliver(s, AuthModal.HandleLogin(m).state, users, AuthModal.HandleLogin(m).callbacks).0 == s
  {
    AuthModal.AttemptFromInput(m);
  }
}
