/**
 * The home page: the token check and profile fetch it starts with, and the
 * selection (the other user and the chat) the chat list sets and the chat
 * view's close button clears. The chat view is shown only while both a user
 * and a chat are selected.
 */
module HomePage {
  import opened Base
  import opened Users
  import opened ChatsPanel
  import opened Browser

  class Home {
    const window: Window
    var chatIdSelected: Option<int>
    var userIdSelected: Option<int>
    var username: string
    var displayName: Option<string>
    var isLoading: bool

    constructor (window: Window)
      ensures this.window == window
      ensures chatIdSelected.None? && userIdSelected.None? && username == "" && displayName == Some("")
      ensures isLoading
    {
      this.window := window;
      chatIdSelected := None;
      userIdSelected := None;
      username := "";
      displayName := Some("");
      isLoading := true;
    }

    /** The page renders the chat view (rather than the loader or the prompt to pick a chat). */
    predicate ShowsChatWindow()
      reads this
    {
      !isLoading && userIdSelected.Some? && chatIdSelected.Some?
    }

    /**
     * The mount effect. Without a stored token the page goes to the login
     * route and requests nothing; otherwise it asks GET /me with the token
     * as a bearer header (the answer arrives through `MeAnswered`).
     */
    method Mount() returns (authorization: Option<string>)
      modifies window`location
      ensures authorization.Some? <==> Truthy(window.Token())
      ensures authorization.Some? ==> authorization.value == "Bearer " + window.Token().value &&
                                      window.location == old(window.location)
      ensures authorization.None? ==> window.location == "/login"
    {
      var token := window.Token();
      if !Truthy(token) {
        window.Navigate("/login");
        return None;
      }
      authorization := Some("Bearer " + token.value);
    }

    /** The answer of GET /me: a profile ends the loading, a failure goes to the login route. */
    method MeAnswered(reply: Response<Profile>)
      modifies this`isLoading, window`location
      ensures reply.Ok? ==> !isLoading && window.location == old(window.location)
      ensures reply.Fail? ==> isLoading == old(isLoading) && window.location == "/login"
    {
      if reply.Ok? {
        isLoading := false;
      } else {
        window.Navigate("/login");
      }
    }

    /** `handleChatSelect`: the other user and the chat, set together from a click on the chat list. */
    method HandleChatSelect(s: Selection)
      modifies this`userIdSelected, this`username, this`displayName, this`chatIdSelected
      ensures userIdSelected == Some(s.userId) && username == s.username
      ensures displayName == s.displayName && chatIdSelected == Some(s.chatId)
      ensures ShowsChatWindow() <==> !isLoading
    {
      userIdSelected := Some(s.userId);
      username := s.username;
      displayName := s.displayName;
      chatIdSelected := Some(s.chatId);
    }

    /** `resetSelect`: only the chat is cleared; the other user stays selected. */
    method ResetSelect()
      modifies this`chatIdSelected
      ensures chatIdSelected.None? && !ShowsChatWindow()
    {
      chatIdSelected := None;
    }
  }

  /**
   * A signed-in visit: the stored token is sent, the profile arrives, a chat
   * is picked (the chat view shows), closed (it hides) and picked again.
   */
  method PickCloseAndPickAgain(token: string, me: Profile, s: Selection, t: Selection)
    returns (authorization: Option<string>, shownFirst: bool, shownAfterClose: bool, shownAgain: bool)
    requires token != ""
    ensures authorization == Some("Bearer " + token)
    ensures shownFirst && !shownAfterClose && shownAgain
  {
    var window := new Window(map[TokenKey := token], "/");
    var home := new Home(window);
    authorization := home.Mount();
    home.MeAnswered(Ok(me));
    home.HandleChatSelect(s);
    shownFirst := home.ShowsChatWindow();
    home.ResetSelect();
    shownAfterClose := home.ShowsChatWindow();
    home.HandleChatSelect(t);
    shownAgain := home.ShowsChatWindow();
  }
}
