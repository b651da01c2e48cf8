/**
 * The sign-in page's two form handlers. Each is a chain of checks on the
 * typed fields, any of which ends the handler with a toast, followed by one
 * call to the auth layer and, when it succeeds, navigation to the notes page.
 */
module LoginPage {
  import opened Wrappers
  import opened JsText

  const MaxUsernameLength := 50
  const MinPasswordLength := 6
  const NotesRoute := "/notes"
  const LoginFallbackError := "Invalid username or password."
  const RegisterFallbackError := "An error occurred during registration."

  /** What the form expects back from `login` and `register`. */
  datatype AuthResult = AuthResult(success: bool, error: Option<string>)

  /** The toast a failed check shows; its title on the page is given beside each case. */
  datatype FormError =
    | AllFieldsRequired    // "All fields required"
    | EmailTooLong         // "Email too long"
    | PasswordTooShort     // "Password too short"
    | PasswordsDontMatch   // "Passwords don't match"

  /**
   * How a submission ends.
   * `Rejected`: a check failed; the auth layer is not called.
   * `AuthFailed`: the auth layer was called with `username` and `password`
   * and refused; a toast shows `description`.
   * `Navigated`: the auth layer was called with `username` and `password`
   * and succeeded; the page moves to `route` (after registering, an
   * "Account created" toast is shown first).
   */
  datatype FormOutcome =
    | Rejected(error: FormError)
    | AuthFailed(username: string, password: string, description: string)
    | Navigated(username: string, password: string, route: string)

  /** `result.error || fallback`: the auth layer's message unless it is missing or empty. */
  function FailureDescription(error: Option<string>, fallback: string): (d: string)
    ensures error.Some? && error.value != "" ==> d == error.value
    ensures error.None? || error.value == "" ==> d == fallback
  {
    if error.Some? && error.value != "" then error.value else fallback
  }

  /**
   * Hands the checked credentials to the auth layer and reacts to its answer:
   * navigation to the notes on success, otherwise the failure toast.
   */
  function CallAuth(username: string, password: string, result: AuthResult, fallback: string): (r: FormOutcome)
    ensures !r.Rejected? && r.username == username && r.password == password
    ensures r.Navigated? <==> result.success
    ensures r.Navigated? ==> r.route == NotesRoute
    ensures r.AuthFailed? ==> r.description == FailureDescription(result.error, fallback)
  {
    if result.success then Navigated(username, password, NotesRoute)
    else AuthFailed(username, password, FailureDescription(result.error, fallback))
  }

  /**
   * `handleLogin`. The username is trimmed, the password is not. Both must be
   * non-empty; then `login` is called with the trimmed username, and the page
   * navigates to the notes only when it succeeds.
   */
  function HandleLogin(username: string, password: string, login: (string, string) -> AuthResult): (r: FormOutcome)
    ensures r.Rejected? <==> IsBlank(username) || password == ""
    ensures r.Rejected? ==> r.error == AllFieldsRequired
    ensures !r.Rejected? ==> r.username == Trim(username) && r.username != [] && r.password == password
    ensures r.Navigated? <==> !r.Rejected? && login(Trim(username), password).success
    ensures r.Navigated? ==> r.route == NotesRoute
    ensures r.AuthFailed? ==>
      r.description == FailureDescription(login(Trim(username), password).error, LoginFallbackError)
  {
    var name := Trim(username);
    if name == [] || password == "" then
      Rejected(AllFieldsRequired)
    else
      CallAuth(name, password, login(name, password), LoginFallbackError)
  }

  /**
   * `handleRegister`. `register` is called only when every check passes, and
   * then with a non-empty trimmed username of at most 50 code units and a
   * confirmed password of at least 6; the page navigates to the notes only
   * when registration succeeds.
   */
  function HandleRegister(username: string, password: string, confirm: string,
                          register: (string, string) -> AuthResult): (r: FormOutcome)
    ensures !r.Rejected? ==>
      && r.username == Trim(username) && r.password == password
      && r.username != [] && JsLength(r.username) <= MaxUsernameLength
      && JsLength(password) >= MinPasswordLength && password == confirm
    ensures r.Navigated? <==> !r.Rejected? && register(Trim(username), password).success
    ensures r.Navigated? ==> r.route == NotesRoute
    ensures r.AuthFailed? ==>
      r.description == FailureDescription(register(Trim(username), password).error, RegisterFallbackError)
  {
    var name := Trim(username);
    if name == [] || password == "" then
      Rejected(AllFieldsRequired)
    else if JsLength(name) > MaxUsernameLength then
      Rejected(EmailTooLong)
    else if JsLength(password) < MinPasswordLength then
      Rejected(PasswordTooShort)
    else if password != confirm then
      Rejected(PasswordsDontMatch)
    else
      CallAuth(name, password, register(name, password), RegisterFallbackError)
  }

  /**
   * The registration checks run in a fixed order and the first failure is the
   * one reported: required fields, the username's length, the password's
   * length, the confirmation.
   */
  lemma RegisterChecksInOrder(username: string, password: string, confirm: string,
                              register: (string, string) -> AuthResult)
    ensures var r := HandleRegister(username, password, confirm, register);
      var name := Trim(username);
      && (r == Rejected(AllFieldsRequired) <==> IsBlank(username) || password == "")
      && (r == Rejected(EmailTooLong) <==>
            !IsBlank(username) && password != "" && JsLength(name) > MaxUsernameLength)
      && (r == Rejected(PasswordTooShort) <==>
            !IsBlank(username) && password != "" && JsLength(name) <= MaxUsernameLength
            && JsLength(password) < MinPasswordLength)
      && (r == Rejected(PasswordsDontMatch) <==>
            !IsBlank(username) && JsLength(name) <= MaxUsernameLength
            && JsLength(password) >= MinPasswordLength && password != confirm)
  {
  }

  /** The limits are inclusive: a 50-unit username and a 6-unit confirmed password reach `register`. */
  lemma RegisterAcceptsLimits(username: string, password: string, register: (string, string) -> AuthResult)
    requires !IsBlank(username) && JsLength(Trim(username)) == MaxUsernameLength
    requires JsLength(password) == MinPasswordLength
    ensures !HandleRegister(username, password, password, register).Rejected?
  {
  }

  /** The password is taken as typed: one made only of spaces is accepted by the login checks. */
  lemma LoginKeepsPasswordUntrimmed(username: string, login: (string, string) -> AuthResult)
    requires !IsBlank(username)
    ensures HandleLogin(username, " ", login).password == " "
  {
  }
}
