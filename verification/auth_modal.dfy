/**
 * The login modal: an input step and a success step, the loading flag and
 * error message around one attempt, the reset performed whenever the modal
 * is closed, and the callbacks it schedules once an attempt succeeds. The
 * `await` on the credential check and the display delay before the
 * callbacks are collapsed into one atomic attempt.
 */
module AuthModal {
  import opened Base
  import AuthService

  datatype Step = LoginInput | Success

  datatype ModalState = ModalState(step: Step, phone: string, username: string, loading: bool, error: Option<string>)

  /** A call the modal makes into its parent once the success message has been shown. */
  datatype Callback = LoginSucceeded(username: string) | CloseRequested

  /** The state left by one login attempt and the callbacks it schedules, in call order. */
  datatype Attempt = Attempt(state: ModalState, callbacks: seq<Callback>)

  const Fallback: string := "Login failed. Please check your credentials."

  /** The state of a modal that has never been used, or has just been closed. */
  const Fresh: ModalState := ModalState(LoginInput, "", "", false, None)

  /** The open/close effect: whenever the modal is closed every field is reset. */
  function OnOpenChange(isOpen: bool, s: ModalState): (r: ModalState)
    ensures !isOpen ==> r.step == LoginInput && r.phone == "" && r.username == "" && r.error.None? && !r.loading
    ensures isOpen ==> r == s
  {
    if isOpen then s else Fresh
  }

  /** What the modal renders: nothing when closed, otherwise the panel of its current step. */
  function Render(isOpen: bool, s: ModalState): (r: Option<Step>)
    ensures r.None? <==> !isOpen
    ensures r.Some? ==> r.value == s.step
  {
    if !isOpen then None else Some(s.step)
  }

  /** The phone input's `onChange`. */
  function TypePhone(s: ModalState, v: string): (r: ModalState)
    ensures r.phone == v && r == s.(phone := r.phone)
  {
    s.(phone := v)
  }

  /** The username input's `onChange`. */
  function TypeUsername(s: ModalState, v: string): (r: ModalState)
    ensures r.username == v && r == s.(username := r.username)
  {
    s.(username := v)
  }

  /** The first two updates of `handleLogin`: the old message goes and loading starts. */
  function BeginAttempt(s: ModalState): (r: ModalState)
    ensures r.error.None? && r.loading
    ensures r.step == s.step && r.phone == s.phone && r.username == s.username
  {
    s.(error := None, loading := true)
  }

  /** `err.message || fallback`: the thrown message, unless it is empty. */
  function ErrorText(message: string): (r: string)
    ensures r != ""
    ensures message != "" ==> r == message
    ensures message == "" ==> r == Fallback
  {
    if message == "" then Fallback else message
  }

  /**
   * The rest of `handleLogin` once the credential check has settled with
   * `outcome`: a resolution moves to the success step and schedules the
   * success callback with the username as typed, then the close request; a
   * rejection keeps the step and shows the message; loading ends either way.
   */
  function Settle(s: ModalState, outcome: Result<bool>): (r: Attempt)
    ensures !r.state.loading
    ensures r.state.phone == s.phone && r.state.username == s.username
    ensures outcome.Ok? ==>
      r.state.step == Success && r.state.error == s.error
      && r.callbacks == [LoginSucceeded(s.username), CloseRequested]
    ensures outcome.Err? ==>
      r.state.step == s.step && r.state.error == Some(ErrorText(outcome.message))
      && r.callbacks == []
  {
    match outcome
    case Ok(_) => Attempt(s.(step := Success, loading := false), [LoginSucceeded(s.username), CloseRequested])
    case Err(m) => Attempt(s.(error := Some(ErrorText(m)), loading := false), [])
  }

  /** `handleLogin`: one whole attempt against the credential check. */
  function HandleLogin(s: ModalState): (r: Attempt)
    ensures !r.state.loading
    ensures r.state.phone == s.phone && r.state.username == s.username
    ensures AuthService.LoginUser(s.phone, s.username).Ok? ==>
      r.state.step == Success && r.state.error.None?
      && r.callbacks == [LoginSucceeded(s.username), CloseRequested]
    ensures AuthService.LoginUser(s.phone, s.username).Err? ==>
      r.state.step == s.step && r.state.error == Some(AuthService.InvalidCredentials)
      && r.callbacks == []
  {
    Settle(BeginAttempt(s), AuthService.LoginUser(s.phone, s.username))
  }

  /**
   * From the input step an attempt ends at the success step exactly when the
   * credentials are accepted; otherwise it stays at the input step with the
   * fixed message, never the fallback.
   */
  lemma AttemptFromInput(s: ModalState)
    requires s.step == LoginInput
    ensures HandleLogin(s).state.step == Success <==> AuthService.LoginUser(s.phone, s.username).Ok?
    ensures HandleLogin(s).state.step == LoginInput ==>
      HandleLogin(s).state.error == Some(AuthService.InvalidCredentials)
      && HandleLogin(s).state.error != Some(Fallback)
  {
  }

  /**
   * The success callback gets the raw typed username, not the cleaned one:
   * with the account typed in capitals the callback carries the capitals.
   */
  lemma CallbackGetsRawUsername(phone: string)
    requires AuthService.CleanPhone(phone) == AuthService.ValidPhone
    ensures HandleLogin(ModalState(LoginInput, phone, "MESSI-LOVE1", false, None)).callbacks
      == [LoginSucceeded("MESSI-LOVE1"), CloseRequested]
  {
    AuthService.AcceptsCapitals();
  }

  /** Closing then reopening shows the input step with empty fields, whatever came before. */
  lemma CloseThenOpen(s: ModalState)
    ensures Render(true, OnOpenChange(true, OnOpenChange(false, s))) == Some(LoginInput)
    ensures OnOpenChange(true, OnOpenChange(false, s)) == Fresh
  {
  }
}
