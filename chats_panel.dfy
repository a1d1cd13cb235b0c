/**
 * The chat list panel: the chats it shows (loaded from GET /chats, grown by
 * the user search), the other participant each entry shows, the highlight
 * of the selected chat and the selection a click passes up to the page.
 * A chat whose participants the server's reply did not carry (JavaScript
 * `undefined`) has `participants == None`: rendering it throws.
 */
module ChatsPanel {
  import opened Base
  import opened Seqs
  import opened Users
  import opened Chats
  import opened Alerts

  /** A chat as the panel holds it. */
  datatype PanelChat = PanelChat(chatId: int, participants: Option<seq<Member>>)

  /** What a click on an entry passes to `chatSelect`. */
  datatype Selection = Selection(userId: int, username: string, displayName: Option<string>, chatId: int)

  /** One rendered entry: the other participant, whether it is highlighted, and its click. */
  datatype Row = Row(other: Member, highlighted: bool, select: Selection)

  /** How one chat renders: not at all, as a row, or by throwing. */
  datatype EntryView = Hidden | Shown(row: Row) | Crash

  /** The POST /chats the search sends: the username looked for and the Authorization header. */
  datatype SearchRequest = SearchRequest(username: string, authorization: string)

  /** Every chat the panel holds carries its participants. */
  predicate Renderable(chats: seq<PanelChat>) {
    forall i :: 0 <= i < |chats| ==> chats[i].participants.Some?
  }

  /**
   * The participant an entry shows: the first whose username differs from
   * the current user's. Until the profile has loaded (`me == None`) that is
   * the first participant.
   */
  function OtherUser(ps: seq<Member>, me: Option<string>): (r: Option<Member>)
    ensures r.None? <==> forall i :: 0 <= i < |ps| ==> Some(ps[i].username) == me
    ensures r.Some? ==> r.value in ps && Some(r.value.username) != me
  {
    FindFirst(ps, (p: Member) => Some(p.username) != me)
  }

  /** How one chat of the panel renders while `selected` is the page's selected chat id. */
  function View(c: PanelChat, me: Option<string>, selected: Option<int>): (r: EntryView)
    ensures r.Crash? <==> c.participants.None?
    ensures r.Hidden? <==> c.participants.Some? && OtherUser(c.participants.value, me).None?
    ensures r.Shown? ==> && r.row.other in c.participants.value
                         && Some(r.row.other.username) != me
                         && (r.row.highlighted <==> selected == Some(c.chatId))
                         && r.row.select == Selection(r.row.other.id, r.row.other.username,
                                                      r.row.other.displayName, c.chatId)
  {
    if c.participants.None? then Crash
    else
      var other := OtherUser(c.participants.value, me);
      if other.None? then Hidden
      else
        var u := other.value;
        Shown(Row(u, selected == Some(c.chatId), Selection(u.id, u.username, u.displayName, c.chatId)))
  }

  /** The rows of the panel in order; None when rendering one of its chats throws. */
  function Rows(chats: seq<PanelChat>, me: Option<string>, selected: Option<int>): (r: Option<seq<Row>>)
    ensures r.None? <==> !Renderable(chats)
    ensures r.Some? ==> |r.value| <= |chats|
  {
    if chats == [] then Some([])
    else
      var rest := Rows(chats[1..], me, selected);
      assert Renderable(chats) <==> chats[0].participants.Some? && Renderable(chats[1..]) by {
        if chats[0].participants.Some? && Renderable(chats[1..]) {
          forall i | 1 <= i < |chats| ensures chats[i].participants.Some? {
            assert chats[i] == chats[1..][i - 1];
          }
        }
      }
      match View(chats[0], me, selected)
      case Crash => None
      case Hidden => rest
      case Shown(row) => if rest.None? then None else Some([row] + rest.value)
  }

  /** Every chat that shows a row contributes it to the rendered panel. */
  lemma {:induction false} RowsShowEach(chats: seq<PanelChat>, me: Option<string>, selected: Option<int>, i: int)
    requires Renderable(chats) && 0 <= i < |chats|
    requires View(chats[i], me, selected).Shown?
    ensures View(chats[i], me, selected).row in Rows(chats, me, selected).value
  {
    if i > 0 {
      assert chats[i] == chats[1..][i - 1];
      assert Renderable(chats[1..]) by {
        forall j | 0 <= j < |chats[1..]| ensures chats[1..][j].participants.Some? {
          assert chats[1..][j] == chats[j + 1];
        }
      }
      RowsShowEach(chats[1..], me, selected, i - 1);
    }
  }

  /** Every rendered row comes from a chat of the panel that shows it. */
  lemma {:induction false} RowsOnlyShown(chats: seq<PanelChat>, me: Option<string>, selected: Option<int>, row: Row)
    requires Renderable(chats) && row in Rows(chats, me, selected).value
    ensures exists i :: 0 <= i < |chats| && View(chats[i], me, selected) == Shown(row)
  {
    assert chats != [];
    var rest := Rows(chats[1..], me, selected);
    assert Renderable(chats[1..]) by {
      forall j | 0 <= j < |chats[1..]| ensures chats[1..][j].participants.Some? {
        assert chats[1..][j] == chats[j + 1];
      }
    }
    if View(chats[0], me, selected) != Shown(row) {
      assert row in rest.value;
      RowsOnlyShown(chats[1..], me, selected, row);
      var i :| 0 <= i < |chats[1..]| && View(chats[1..][i], me, selected) == Shown(row);
      assert chats[i + 1] == chats[1..][i];
    }
  }

  /** A two-member chat shows the member who is not the current user, in either order. */
  lemma ShowsTheOtherMember(c: int, me: Member, other: Member, selected: Option<int>)
    requires me.username != other.username
    ensures var row := Row(other, selected == Some(c), Selection(other.id, other.username, other.displayName, c));
            && View(PanelChat(c, Some([me, other])), Some(me.username), selected) == Shown(row)
            && View(PanelChat(c, Some([other, me])), Some(me.username), selected) == Shown(row)
  {
    var ps := [me, other];
    assert !(forall i :: 0 <= i < |ps| ==> Some(ps[i].username) == Some(me.username)) by {
      assert ps[1] == other;
    }
    assert [other, me][0] == other;
  }

  /** Until the profile has loaded, every chat shows its first participant, possibly the user themself. */
  lemma BeforeProfileShowsFirst(c: PanelChat, selected: Option<int>)
    requires c.participants.Some? && c.participants.value != []
    ensures View(c, None, selected).Shown? && View(c, None, selected).row.other == c.participants.value[0]
  {
  }

  /** A chat whose only member is the user (a chat with themself) is not shown. */
  lemma SelfChatHidden(c: int, me: Member, selected: Option<int>)
    ensures View(PanelChat(c, Some([me])), Some(me.username), selected) == Hidden
  {
  }

  /** The chats GET /chats answered, as the panel holds them. */
  function Listed(entries: seq<ChatEntry>): (r: seq<PanelChat>)
    ensures |r| == |entries| && Renderable(r)
    ensures forall i :: 0 <= i < |entries| ==>
              r[i] == PanelChat(entries[i].chatId, Some(entries[i].participants))
  {
    seq(|entries|, i requires 0 <= i < |entries| => PanelChat(entries[i].chatId, Some(entries[i].participants)))
  }

  /**
   * The chat built from the POST /chats reply: a new chat's members carry no
   * display name, and the "already exists" reply carries no participants.
   */
  function FromCreated(c: Created): (r: PanelChat)
    ensures r.chatId == c.chatId
    ensures r.participants.Some? <==> c.NewChat?
  {
    match c
    case AlreadyExists(id) => PanelChat(id, None)
    case NewChat(id, ps) =>
      PanelChat(id, Some(seq(|ps|, i requires 0 <= i < |ps| => Member(ps[i].id, ps[i].username, None))))
  }

  /** The chats after a successful search as written: the reply's chat appended, whatever it was. */
  function AppendedAsWritten(chats: seq<PanelChat>, c: Created): seq<PanelChat> {
    chats + [FromCreated(c)]
  }

  /**
   * The chats after a successful search: a new chat appended at the end;
   * a chat the server already had adds nothing.
   */
  function Appended(chats: seq<PanelChat>, c: Created): (r: seq<PanelChat>)
    ensures c.NewChat? ==> |r| == |chats| + 1 && r[..|chats|] == chats && r[|chats|] == FromCreated(c)
    ensures c.AlreadyExists? ==> r == chats
    ensures Renderable(chats) ==> Renderable(r)
  {
    if c.AlreadyExists? then chats else chats + [FromCreated(c)]
  }

  /**
   * As written, searching for a user one already has a chat with appends
   * an entry without participants, and the panel throws when it renders.
   */
  lemma ExistingChatCrashesPanel(chats: seq<PanelChat>, chatId: int, me: Option<string>, selected: Option<int>)
    ensures Rows(AppendedAsWritten(chats, AlreadyExists(chatId)), me, selected).None?
    ensures Rows(Appended(chats, AlreadyExists(chatId)), me, selected) == Rows(chats, me, selected)
  {
    var after := AppendedAsWritten(chats, AlreadyExists(chatId));
    assert after[|chats|].participants.None?;
  }

  /** For a new chat the two agree. */
  lemma NewChatAppendsAlike(chats: seq<PanelChat>, chatId: int, ps: seq<UserSummary>)
    ensures Appended(chats, NewChat(chatId, ps)) == AppendedAsWritten(chats, NewChat(chatId, ps))
  {
  }

  const FriendAdded := "Friend added! Enjoy chatting :)"
  const NoSuchUser := "No user with such username. Please enter correct username"

  /** The Authorization header built from the stored token; a missing token reads as "null". */
  function BearerHeader(token: Option<string>): string {
    "Bearer " + token.GetOr("null")
  }

  /** The search failed with a 404: no user has that username. */
  predicate NoSuchUsername<T>(reply: Response<T>) {
    reply.Fail? && reply.failure.HttpError? && reply.failure.status == NotFound
  }

  class Panel {
    const alerts: AlertProvider
    var chats: seq<PanelChat>
    var searchInput: string
    /** The username of the caller's profile, once GET /me has answered. */
    var currentUser: Option<string>

    predicate Valid()
      reads this
    {
      Renderable(chats)
    }

    constructor (alerts: AlertProvider)
      ensures this.alerts == alerts && Valid()
      ensures chats == [] && searchInput == "" && currentUser.None?
    {
      this.alerts := alerts;
      chats := [];
      searchInput := "";
      currentUser := None;
    }

    /**
     * The mount effect: without a token nothing is requested; otherwise the
     * chat list and the profile are fetched, each stored when it arrives
     * and only logged when it fails.
     */
    method Load(token: Option<string>, chatsReply: Response<seq<ChatEntry>>, meReply: Response<Profile>)
      returns (requested: bool)
      requires Valid()
      modifies this`chats, this`currentUser
      ensures Valid()
      ensures requested <==> Truthy(token)
      ensures chats == if requested && chatsReply.Ok? then Listed(chatsReply.value) else old(chats)
      ensures currentUser == if requested && meReply.Ok? then Some(meReply.value.username) else old(currentUser)
    {
      if !Truthy(token) {
        return false;
      }
      requested := true;
      if chatsReply.Ok? {
        chats := Listed(chatsReply.value);
      }
      if meReply.Ok? {
        currentUser := Some(meReply.value.username);
      }
    }

    method Type(text: string)
      modifies this`searchInput
      ensures searchInput == text
    {
      searchInput := text;
    }

    /**
     * The search button. An empty input sends nothing. Otherwise the
     * username is posted; a reply appends its chat and raises the success
     * alert, a 404 raises the error alert, and any other failure is ignored.
     */
    method HandleSearchClick(token: Option<string>, reply: Response<Created>, now: int)
      returns (request: Option<SearchRequest>)
      requires Valid()
      modifies this`chats, alerts
      ensures Valid()
      ensures request.Some? <==> searchInput != ""
      ensures request.Some? ==> request.value == SearchRequest(searchInput, BearerHeader(token))
      ensures request.Some? && reply.Ok? ==>
                && chats == Appended(old(chats), reply.value)
                && alerts.alerts == old(alerts.alerts) + [NewAlert(FriendAdded, Success, None, now)]
      ensures request.Some? && NoSuchUsername(reply) ==>
                && chats == old(chats)
                && alerts.alerts == old(alerts.alerts) + [NewAlert(NoSuchUser, Error, None, now)]
      ensures request.None? || (reply.Fail? && !NoSuchUsername(reply)) ==>
                chats == old(chats) && alerts.alerts == old(alerts.alerts)
    {
      if searchInput == "" {
        return None;
      }
      request := Some(SearchRequest(searchInput, BearerHeader(token)));
      if reply.Ok? {
        chats := Appended(chats, reply.value);
        alerts.AddAlert(FriendAdded, Success, None, now);
      } else if NoSuchUsername(reply) {
        alerts.AddAlert(NoSuchUser, Error, None, now);
      }
    }
  }
}
