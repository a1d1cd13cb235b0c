/**
 * The sign-up form: four fields, the error line, and the submit that
 * checks the fields, registers, logs in with the same credentials, keeps
 * the token and goes home.
 */
module RegisterPage {
  import opened Base
  import opened Users
  import opened Browser
  import opened LoginPage

  datatype Registration = Registration(username: string, displayName: string, email: string, password: string)

  const RegistrationFailed := "Registration failed. Please try again"

  /**
   * The pattern the password field declares: at least eight letters or
   * digits, one of them a digit.
   */
  predicate MatchesPasswordPattern(p: string) {
    && |p| >= 8
    && (forall i :: 0 <= i < |p| ==> 'a' <= p[i] <= 'z' || 'A' <= p[i] <= 'Z' || '0' <= p[i] <= '9')
    && (exists i :: 0 <= i < |p| && '0' <= p[i] <= '9')
  }

  class RegisterForm {
    const window: Window
    var username: Option<string>
    var displayName: Option<string>
    var email: Option<string>
    var password: Option<string>
    var errorMessage: Option<string>

    constructor (window: Window)
      ensures this.window == window
      ensures username.None? && displayName.None? && email.None? && password.None? && errorMessage.None?
    {
      this.window := window;
      username := None;
      displayName := None;
      email := None;
      password := None;
      errorMessage := None;
    }

    predicate Filled()
      reads this
    {
      Truthy(username) && Truthy(displayName) && Truthy(email) && Truthy(password)
    }

    /** Typing in a field (0 username, 1 display name, 2 email, 3 password); any error shown is cleared. */
    method SetField(field: int, v: string)
      requires 0 <= field < 4
      modifies this`username, this`displayName, this`email, this`password, this`errorMessage
      ensures errorMessage.None?
      ensures username == if field == 0 then Some(v) else old(username)
      ensures displayName == if field == 1 then Some(v) else old(displayName)
      ensures email == if field == 2 then Some(v) else old(email)
      ensures password == if field == 3 then Some(v) else old(password)
    {
      if field == 0 {
        username := Some(v);
      } else if field == 1 {
        displayName := Some(v);
      } else if field == 2 {
        email := Some(v);
      } else {
        password := Some(v);
      }
      errorMessage := None;
    }

    /**
     * `handleRegister`. An empty field sends nothing and shows the fill-in
     * error. Otherwise the registration is posted; only when it succeeds is
     * the login posted with the same username and password; when that
     * succeeds too its token is stored and the page goes home. Either
     * failure shows the registration error and stores nothing.
     */
    method HandleRegister(registered: Response<Registered>, loggedIn: Response<LoginReply>)
      returns (registration: Option<Registration>, login: Option<Credentials>)
      modifies this`errorMessage, window
      ensures registration.Some? <==> Filled()
      ensures registration.Some? ==>
                registration.value == Registration(username.value, displayName.value, email.value, password.value)
      ensures login.Some? <==> registration.Some? && registered.Ok?
      ensures login.Some? ==> login.value == Credentials(username.value, password.value)
      ensures registration.None? ==> errorMessage == Some(FillAllFields)
      ensures login.Some? && loggedIn.Ok? ==>
                && window.storage == old(window.storage)[TokenKey := loggedIn.value.accessToken]
                && window.location == "/"
                && errorMessage == old(errorMessage)
      ensures registration.Some? && (registered.Fail? || loggedIn.Fail?) ==> errorMessage == Some(RegistrationFailed)
      ensures !(login.Some? && loggedIn.Ok?) ==>
                window.storage == old(window.storage) && window.location == old(window.location)
    {
      login := None;
      if !Filled() {
        errorMessage := Some(FillAllFields);
        return None, None;
      }
      registration := Some(Registration(username.value, displayName.value, email.value, password.value));
      if registered.Fail? {
        errorMessage := Some(RegistrationFailed);
        return;
      }
      login := Some(Credentials(username.value, password.value));
      if loggedIn.Fail? {
        errorMessage := Some(RegistrationFailed);
        return;
      }
      window.Store(TokenKey, loggedIn.value.accessToken);
      window.Navigate("/");
    }
  }

  /** The declared pattern is not checked on submit: a three-letter password is posted. */
  method ShortPasswordIsPosted(registered: Response<Registered>, loggedIn: Response<LoginReply>)
    returns (registration: Option<Registration>)
    ensures registration.Some? && !MatchesPasswordPattern(registration.value.password)
  {
    var window := new Window(map[], "/signup");
    var form := new RegisterForm(window);
    form.SetField(0, "jonh");
    form.SetField(1, "Jonh");
    form.SetField(2, "jonh@example.com");
    form.SetField(3, "abc");
    var login;
    registration, login := form.HandleRegister(registered, loggedIn);
  }
}
