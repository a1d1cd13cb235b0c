/**
 * The login form: its two fields, the error line under them, and the
 * submit that checks the fields, posts them, keeps the token and goes home.
 */
module LoginPage {
  import opened Base
  import opened Users
  import opened Browser

  datatype Credentials = Credentials(username: string, password: string)

  const FillAllFields := "Please, fill all fields before"
  const LoginFailed := "Login failed. Please check your credentials."

  class LoginForm {
    const window: Window
    var username: Option<string>
    var password: Option<string>
    var errorMessage: Option<string>

    constructor (window: Window)
      ensures this.window == window && username.None? && password.None? && errorMessage.None?
    {
      this.window := window;
      username := None;
      password := None;
      errorMessage := None;
    }

    /** Typing in the username field; any error shown is cleared. */
    method SetUsername(v: string)
      modifies this`username, this`errorMessage
      ensures username == Some(v) && errorMessage.None?
    {
      username := Some(v);
      errorMessage := None;
    }

    /** Typing in the password field; any error shown is cleared. */
    method SetPassword(v: string)
      modifies this`password, this`errorMessage
      ensures password == Some(v) && errorMessage.None?
    {
      password := Some(v);
      errorMessage := None;
    }

    /**
     * `handleLogin`. An empty field sends nothing and shows the fill-in
     * error. Otherwise the credentials are posted: a reply's token is
     * stored and the page goes home; a failure shows the login error and
     * stores nothing.
     */
    method HandleLogin(reply: Response<LoginReply>) returns (request: Option<Credentials>)
      modifies this`errorMessage, window
      ensures request.Some? <==> Truthy(username) && Truthy(password)
      ensures request.Some? ==> request.value == Credentials(username.value, password.value)
      ensures request.None? ==>
                && errorMessage == Some(FillAllFields)
                && window.storage == old(window.storage) && window.location == old(window.location)
      ensures request.Some? && reply.Ok? ==>
                && window.storage == old(window.storage)[TokenKey := reply.value.accessToken]
                && window.location == "/"
                && errorMessage == old(errorMessage)
      ensures request.Some? && reply.Fail? ==>
                && errorMessage == Some(LoginFailed)
                && window.storage == old(window.storage) && window.location == old(window.location)
    {
      if !Truthy(username) || !Truthy(password) {
        errorMessage := Some(FillAllFields);
        return None;
      }
      request := Some(Credentials(username.value, password.value));
      if reply.Ok? {
        window.Store(TokenKey, reply.value.accessToken);
        window.Navigate("/");
      } else {
        errorMessage := Some(LoginFailed);
      }
    }
  }

  /** After a successful login the home page finds a token to send, when the server issued a non-empty one. */
  method LoginThenToken(name: string, pass: string, token: string) returns (stored: Option<string>)
    requires name != "" && pass != "" && token != ""
    ensures stored == Some(token)
  {
    var window := new Window(map[], "/login");
    var form := new LoginForm(window);
    form.SetUsername(name);
    form.SetPassword(pass);
    var request := form.HandleLogin(Ok(LoginReply(token, "bearer")));
    stored := window.Token();
  }
}
