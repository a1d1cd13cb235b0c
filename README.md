# mocqa-messenger in Dafny

This project models the core of a two-party messenger.

On the server (FastAPI over a relational store) it covers:

- accounts and bearer tokens;
- finding or creating the chat of two users, and listing a user's chats;
- sending, listing, deleting and editing messages;
- the registry of live sockets per chat, and the broadcast of each change to them.

On the client (React) it covers:

- the chat view, which keeps its message list in step with the live frames;
- the chat list panel and its user search;
- the alert queue, the socket hook and the home page's selection;
- the login and sign-up forms.

The store is a value (`Database.Tables`) inside a class (`Database.Db`) that the handlers update. A handler's reply is a `Base.Response`: the body, or a `Base.Failure`. A failure is either an `HttpError` the handler raises itself or `Internal`, the 500 the framework answers for an exception nobody catches. React components are classes: their state hooks are fields and their event handlers are methods.

Several things outside the code become parameters:

- the clock;
- password hashing (`hashed`, `check`);
- JWT signing and verifying (`encode`, `decode`);
- `encodeURIComponent`;
- every HTTP reply a client handler awaits.

`Agreement` proves that the client's list and the server's listing agree after every broadcast change.

The message handlers exist twice. `backend/routes/*.py` holds one copy; `backend/main.py` holds another and never mounts the routers. The model follows `backend/routes/*.py`. The copies differ in three ways. `backend/main.py` imports `shutil` and psycopg2's `IntegrityError`, and `backend/routes/*.py` does not; both are covered under Findings. `backend/routes/messages.py` also takes, stores, broadcasts and lists a `reply_content` field (lines 20, 51, 64 and 99), which `backend/main.py` does not; the model carries it, as `replyContent`. `backend/main.py` is cited for the socket registry, the socket endpoint and GET /me, which exist only there.

## Model

| member | source | states |
|---|---|---|
| Auth.CreateAccessToken | backend/auth.py:18-23 | the payload is `data` with `exp` = now + lifetime; every other key keeps its value |
| Auth.DefaultLifetime | backend/auth.py:15-20 | with no lifetime or a zero one, a token lives 60 minutes |
| Auth.UpToSpace | backend/auth.py:32 | the token is the longest space-free prefix of what follows "Bearer " |
| Auth.BearerTokenOf | backend/auth.py:29-32 | "Bearer " + t + rest carries exactly t when t has no space |
| Auth.CurrentUser | backend/auth.py:26-52 | a missing header or one without "Bearer " gives 401 "Missing or invalid token"; then an expired token gives "Token expired", any other refused token "Invalid token", a payload without `sub` "Invalid token payload", and a `sub` naming no stored user "User not found", all 401; a `sub` naming a stored user yields that user |
| Auth.IssuedTokenAuthenticates | backend/auth.py:18-52 | a token issued for a stored user, presented as a bearer header, authenticates that user |
| Users.RegisterCheck | backend/routes/users.py:13-37 | a taken username gives 400 "Username already exists" (checked first); a taken email gives 400 "Error creating user"; otherwise registration is accepted |
| Users.DuplicateEmailAsWritten | backend/routes/users.py:35-37 | as written, a fresh username with a taken email gives 500 instead of the intended 400 |
| Users.Register | backend/routes/users.py:13-39 | a refusal changes nothing; success stores exactly one user under the next id, with the hashed password, and answers its id and username |
| Users.Login | backend/routes/users.py:42-50 | an unknown username and a wrong password both give 401 "Invalid credentials"; success is a "bearer" token whose `sub` is the username |
| Users.RegisterLoginAuthenticates | backend/routes/users.py:13-50 | register, log in with the same password, present the token: the caller is the new user |
| Users.UserList | backend/routes/users.py:53-60 | one (id, username) per user, in store order |
| Users.Me | backend/main.py:152-158 | fails with the authentication failure exactly when authentication fails; otherwise answers the id, username and display name of the authenticated caller |
| Users.MeOfIssuedToken | backend/main.py:152-158 | a token issued for a stored user makes GET /me answer that user's profile |
| Users.DeleteUser | backend/routes/users.py:63-77 | an unknown id gives the handler's own 500, carrying the text of the exception that deleting None raises, and changes nothing; otherwise the user and their participant rows go, their messages stay, and the store stays valid |
| Users.DeleteUserKeepsValid | backend/routes/users.py:70-72 | removing a user and their participant rows keeps the store's keys unique and its references in range |
| Users.DeletedSenderBreaksListing | backend/routes/messages.py:91-106 | once a sender is deleted, listing any chat holding one of their messages fails |
| Chats.ExistingChat | backend/routes/chats.py:19-29 | the first chat whose members are exactly the two users |
| Chats.SelfChatMatchesAsWritten | backend/routes/chats.py:19-26 | as written, a chat of the caller with themself counts as the chat with the other user |
| Chats.SelfChatSkippedAsIntended | backend/routes/chats.py:19-26 | the corrected query skips that self-chat and finds the real two-party chat |
| Chats.CreateChat | backend/routes/chats.py:13-49 | an unknown username gives 404; an existing chat is answered with no change; otherwise one chat and two participant rows are stored, and the two members are answered |
| Chats.CreateKeepsValid | backend/routes/chats.py:31-41 | storing the chat and its two participant rows keeps the store valid |
| Chats.CreatedChatIsFound | backend/routes/chats.py:19-41 | after a create, the same request finds the chat just created |
| Chats.MembersOfNewChat | backend/routes/chats.py:36-40 | the new chat's members are exactly the caller and the other user |
| Chats.MemberIdsConcat | backend/routes/chats.py:63-68 | the member ids of appended participant rows are appended |
| Chats.MembersAfterAppend | backend/routes/chats.py:36-40 | adding another chat's participant rows leaves a chat's members unchanged |
| Chats.ChatIdsOf | backend/routes/chats.py:54-59 | exactly the chats with a participant row of the user, each once |
| Chats.MembersOf | backend/routes/chats.py:63-76 | no more members than ids |
| Chats.MembersOfCovers | backend/routes/chats.py:63-76 | every member id naming a stored user yields that user's entry |
| Chats.MembersOfOnly | backend/routes/chats.py:63-76 | every entry is the stored user of one of the ids |
| Chats.ChatListIsCallersChats | backend/routes/chats.py:52-79 | GET /chats lists the caller's chats and only those, each once |
| Chats.ChatListMembers | backend/routes/chats.py:63-76 | each entry lists every stored user with a participant row in that chat |
| Chats.ChatListOnlyMembers | backend/routes/chats.py:63-76 | each listed member has a participant row in that chat |
| Chats.GetChats | backend/routes/chats.py:52-79 | the handler's loop answers exactly the chat list |
| Messages.SendCheck | backend/routes/messages.py:26-45 | 404 for an unknown chat, then 403 for a non-member, then 400 when there is neither text nor image; everything else is accepted |
| Messages.ImageSendFailsAsWritten | backend/routes/messages.py:37-42 | as written, every send with an image fails with 500, while the intended checks accept it |
| Messages.PostedOf | backend/routes/messages.py:59-68 | the broadcast carries the stored row's columns and the sender's username |
| Messages.SendMessage | backend/routes/messages.py:16-71 | a refusal changes nothing; success stores one row sent by the caller under the next id and broadcasts its data to that chat |
| Messages.Entries | backend/routes/messages.py:91-107 | one entry per row, in order, with the sender's id, username and display name; it fails exactly when some sender is no longer a user |
| Messages.GetMessagesInChat | backend/routes/messages.py:74-109 | the handler's loop answers exactly the listing |
| Messages.ListingInTimeOrder | backend/routes/messages.py:89 | a listing holds only that chat's messages, ascending by sent time |
| Messages.ListingCoversChat | backend/routes/messages.py:89-107 | no message of the chat is left out |
| Messages.ListingEntryIsStored | backend/routes/messages.py:89-107 | every entry is a stored message of the chat with its sender |
| Messages.SetContent | backend/routes/messages.py:150 | only the content of the row with that id changes |
| Messages.DeleteMessage | backend/routes/messages.py:112-137 | an unknown id gives 500; only the sender may delete (403); the row goes and a `delete_message` frame goes to its chat |
| Messages.RemoveKeepsValid | backend/routes/messages.py:124-126 | removing a message keeps the store valid |
| Messages.EditMessage | backend/routes/messages.py:140-168 | an unknown id gives 500; only the sender may edit (403); only `content` changes, and an `edit_message` frame with it goes to the chat |
| Connections.Connected | backend/main.py:122-126 | the socket is appended to its chat's list, which is created when absent; other chats are unchanged |
| Connections.Disconnected | backend/main.py:128-131 | one occurrence of the socket is removed; an emptied chat is dropped; other chats are untouched |
| Connections.DisconnectedKeepsOrder | backend/main.py:128-131 | the removed occurrence is the first one, and the chat's other sockets stay in connection order |
| Seqs.RemoveFirstAt | backend/main.py:129 | `list.remove` drops the first occurrence and keeps the other elements in order |
| Connections.RegistryStaysNonEmpty | backend/main.py:122-131 | no chat id ever maps to an empty list |
| Connections.ConnectThenDisconnect | backend/main.py:122-131 | a socket that connects and then disconnects leaves the registry as it was |
| Connections.ConnectionManager.Connect | backend/main.py:122-126 | the registry becomes `Connected` of the old one |
| Connections.ConnectionManager.Disconnect | backend/main.py:128-131 | an unknown chat or socket raises and changes nothing; otherwise the registry becomes `Disconnected` of the old one |
| Connections.ConnectionManager.Broadcast | backend/main.py:133-136 | one delivery of the message to each socket of the chat, in connection order; none for an unknown chat |
| Connections.ConnectionManager.Serve | backend/main.py:140-149 | each received value goes to every socket of the chat, the sender included; when the client leaves, the registry is as before |
| Connections.LegacyRegistry.Connect | backend/main.py:46-50 | the socket is appended to its chat's list |
| Connections.LegacyRegistry.Disconnect | backend/main.py:52-56 | one occurrence is removed; the emptied chat id stays |
| Connections.LastDisconnectDiffers | backend/main.py:52-56 | when the last socket leaves, the manager drops the chat id and the legacy registry keeps an empty list |
| Reconciler.FromFrame | frontend/src/components/ChatWindow.tsx:89-99 | a new-message frame becomes a message with the frame's fields and a sender without display name |
| Reconciler.DeleteById | frontend/src/components/ChatWindow.tsx:79-82 | exactly the messages with another id remain |
| Reconciler.EditById | frontend/src/components/ChatWindow.tsx:84-87 | same length and order; only the content of messages with that id changes |
| Reconciler.Append | frontend/src/components/ChatWindow.tsx:89-99 | one message is appended at the end |
| Reconciler.DeleteUnknownIsNoOp | frontend/src/components/ChatWindow.tsx:79-82 | deleting an id not in the list changes nothing |
| Reconciler.DeleteKeepsOrder | frontend/src/components/ChatWindow.tsx:79-82 | deletion works piecewise on any split, removes exactly the messages with that id, and leaves none with it |
| Reconciler.DeleteIdempotent | frontend/src/components/ChatWindow.tsx:79-82 | a repeated delete frame removes nothing more |
| Reconciler.EditUnknownIsNoOp | frontend/src/components/ChatWindow.tsx:84-87 | editing an id not in the list changes nothing |
| Reconciler.EditKeepsIds | frontend/src/components/ChatWindow.tsx:84-87 | edits keep every id, and unique ids stay unique |
| Reconciler.LatestEditWins | frontend/src/components/ChatWindow.tsx:84-87 | of two edits of one message the later content shows |
| Reconciler.DeleteEditCommute | frontend/src/components/ChatWindow.tsx:79-87 | delete and edit frames commute |
| Reconciler.EditConcat | frontend/src/components/ChatWindow.tsx:84-87 | edits work piecewise on any split |
| Reconciler.ApplyAllConcat | frontend/src/components/ChatWindow.tsx:76-100 | frames compose in arrival order |
| Reconciler.ApplyKeepsUniqueIds | frontend/src/components/ChatWindow.tsx:76-100 | ids stay unique while each new message carries a fresh id |
| Replay.ShownStep | frontend/src/components/ChatWindow.tsx:76-100 | one frame changes the list's message with a given id exactly as that message's own step does |
| Replay.ShownIsFate | frontend/src/components/ChatWindow.tsx:76-100 | frames applied to an empty list show, for every id, the message that id's own history of posts, edits and deletes gives, with unique ids |
| Replay.FateSomeAlive | frontend/src/components/ChatWindow.tsx:76-100 | a message that is shown was posted and not deleted afterwards |
| Replay.FateOfLive | frontend/src/components/ChatWindow.tsx:76-100 | a message posted and not deleted afterwards shows its post's id, time and sender, with the content of the last edit after the post |
| Replay.ReplayFromEmpty | frontend/src/components/ChatWindow.tsx:76-100 | frames applied to an empty list leave exactly the posted messages not deleted afterwards, each once, each with its post's fields and its latest edit |
| Agreement.EntriesRemove | backend/routes/messages.py:124-135 | listing and deleting by id commute |
| Agreement.EntriesSetContent | backend/routes/messages.py:150-166 | listing and setting content commute |
| Agreement.RowsOfSetContent | backend/routes/messages.py:150 | an edit does not move a message to another chat |
| Agreement.DeleteAgrees | backend/routes/messages.py:124-135 | after a delete, every chat's listing is the old listing with the `delete_message` frame applied |
| Agreement.EditAgrees | backend/routes/messages.py:150-166 | after an edit, every chat's listing is the old listing with the `edit_message` frame applied |
| Agreement.EntriesAppend | backend/routes/messages.py:91-107 | listing a row appended to the store appends its entry |
| Agreement.ListingAfterSend | backend/routes/messages.py:47-57 | storing a message appends its entry to its chat's listing |
| Agreement.SendAgrees | backend/routes/messages.py:47-69 | after a send, the listing is the old listing plus the broadcast message, except that the live copy lacks the sender's display name |
| Agreement.SendElsewhereInvisible | backend/routes/messages.py:47-57 | a message sent to another chat leaves this chat's listing unchanged |
| ChatWindow.SendDecision | frontend/src/components/ChatWindow.tsx:108-117 | a form is posted exactly when a token is stored and not in edit mode; the text goes in only when non-empty, and the file when one is chosen |
| ChatWindow.ChatView.Open | frontend/src/components/ChatWindow.tsx:49-74 | without a token nothing starts; otherwise the loader shows, the history of this chat is requested and the socket opens |
| ChatWindow.ChatView.Cleanup | frontend/src/components/ChatWindow.tsx:102-105 | the run is unmounted and its socket closed |
| ChatWindow.ChatView.SwitchChat | frontend/src/components/ChatWindow.tsx:49-106 | a new run starts for the new chat: with a token the loader shows and the history and socket start, without one the loader is left as it was; the old list stays until the new history arrives |
| ChatWindow.ChatView.HistoryLoaded | frontend/src/components/ChatWindow.tsx:58-68 | only the latest live run may act; success replaces the list, and the loader hides either way |
| ChatWindow.ChatView.FrameReceived | frontend/src/components/ChatWindow.tsx:76-100 | a frame on the current socket updates the list by `Apply`; a closed socket delivers nothing |
| ChatWindow.ChatView.Type | frontend/src/components/ChatWindow.tsx:257 | the composer holds the typed text |
| ChatWindow.ChatView.ChooseFile | frontend/src/components/ChatWindow.tsx:292 | the chosen file is selected |
| ChatWindow.ChatView.SendWith | frontend/src/components/ChatWindow.tsx:108-132 | posts `SendDecision`; a post clears the composer whatever its outcome, and the list is not touched |
| ChatWindow.ChatView.SendMessage | frontend/src/components/ChatWindow.tsx:108-132 | sends the composer's text and file |
| ChatWindow.ChatView.DeleteMessage | frontend/src/components/ChatWindow.tsx:134-147 | a delete of that id is requested exactly when a token is stored |
| ChatWindow.ChatView.StartEdit | frontend/src/components/ChatWindow.tsx:212-217 | edit mode starts for the message and remembers its content |
| ChatWindow.ChatView.CancelEdit | frontend/src/components/ChatWindow.tsx:246 | only edit mode is left |
| ChatWindow.ChatView.EditWith | frontend/src/components/ChatWindow.tsx:149-173 | a PATCH is sent exactly when a token is stored, edit mode is on and the id and old content are set; edit mode ends only when it succeeds |
| ChatWindow.ChatView.EditMessage | frontend/src/components/ChatWindow.tsx:149-173 | edits with the composer's text; edit mode and the edited id are cleared only when the PATCH succeeds, and kept otherwise |
| ChatWindow.ChatView.Submit | frontend/src/components/ChatWindow.tsx:234-276 | with an empty composer the required text area blocks the submit and nothing changes; otherwise the composer is cleared, then the edit (in edit mode) or the send runs with the text captured before clearing |
| ChatWindow.EarlyFrameIsOverwritten | frontend/src/components/ChatWindow.tsx:63-99 | a live message that arrives before the history is lost |
| ChatWindow.StaleHistoryIgnored | frontend/src/components/ChatWindow.tsx:50-105 | after a chat switch, the old chat's late history and frames are ignored |
| ChatWindow.FailedHistoryKeepsPreviousList | frontend/src/components/ChatWindow.tsx:58-68 | when the new chat's history fails, the previous chat's list stays on screen |
| Alerts.Dismissed | frontend/src/context/AlertContext.tsx:27-29 | exactly the alerts with another id remain |
| Alerts.DismissedConcat | frontend/src/context/AlertContext.tsx:27-29 | dismissal works piecewise on any split of the queue and keeps a single alert exactly when its id differs, so the survivors keep the order they were raised in |
| Alerts.DismissUnknown | frontend/src/context/AlertContext.tsx:27-29 | dismissing an unused id changes nothing |
| Alerts.DismissIdempotent | frontend/src/context/AlertContext.tsx:27-29 | dismissing twice is dismissing once |
| Alerts.RaiseThenDismiss | frontend/src/context/AlertContext.tsx:22-29 | raising an alert and then dismissing its id restores the queue |
| Alerts.SameMillisecondDismissedTogether | frontend/src/context/AlertContext.tsx:22-29 | two alerts raised in the same millisecond are dismissed together, and nothing else goes |
| Alerts.AlertProvider.AddAlert | frontend/src/context/AlertContext.tsx:22-25 | one alert is appended at the end, with duration 3000 unless one is given |
| Alerts.AlertProvider.RemoveAlert | frontend/src/context/AlertContext.tsx:27-29 | the queue becomes `Dismissed` of the old one |
| Alerts.UseAlert | frontend/src/context/AlertContext.tsx:47-53 | outside a provider it throws "useAlert must be used within an AlertProvider" |
| ChatsPanel.OtherUser | frontend/src/components/ChatsPanel.tsx:101 | the first participant whose username is not the current user's; none when all of them are the current user's |
| ChatsPanel.View | frontend/src/components/ChatsPanel.tsx:100-120 | a chat without participants throws, one without another user is hidden; a row is highlighted exactly when its chat is selected, and its click passes the other user and the chat id |
| ChatsPanel.Rows | frontend/src/components/ChatsPanel.tsx:100-120 | the panel renders exactly when every chat carries its participants |
| ChatsPanel.RowsShowEach | frontend/src/components/ChatsPanel.tsx:100-120 | every chat that shows a row contributes it |
| ChatsPanel.RowsOnlyShown | frontend/src/components/ChatsPanel.tsx:100-120 | every row comes from a chat that shows it |
| ChatsPanel.ShowsTheOtherMember | frontend/src/components/ChatsPanel.tsx:101-114 | a two-member chat shows the member who is not the current user, in either order |
| ChatsPanel.BeforeProfileShowsFirst | frontend/src/components/ChatsPanel.tsx:101-102 | until the profile has loaded, each chat shows its first participant |
| ChatsPanel.SelfChatHidden | frontend/src/components/ChatsPanel.tsx:101-102 | a chat whose only member is the user is not shown |
| ChatsPanel.Listed | frontend/src/components/ChatsPanel.tsx:39 | the loaded chats, one per entry, each with its participants |
| ChatsPanel.FromCreated | frontend/src/components/ChatsPanel.tsx:68-71 | the reply's chat id; participants only for a new chat |
| ChatsPanel.Appended | frontend/src/components/ChatsPanel.tsx:72 | a new chat is appended at the end with earlier chats in order; a panel that renders still renders |
| ChatsPanel.ExistingChatCrashesPanel | frontend/src/components/ChatsPanel.tsx:68-101 | as written, an "already exists" reply appends a chat without participants and rendering throws |
| ChatsPanel.NewChatAppendsAlike | frontend/src/components/ChatsPanel.tsx:68-72 | for a new chat, the corrected append is the written one |
| ChatsPanel.Panel.Load | frontend/src/components/ChatsPanel.tsx:30-49 | with no token nothing is requested; each successful reply is stored, and each failure changes nothing |
| ChatsPanel.Panel.Type | frontend/src/components/ChatsPanel.tsx:89 | the search input holds the typed text |
| ChatsPanel.Panel.HandleSearchClick | frontend/src/components/ChatsPanel.tsx:51-80 | empty input sends nothing; a reply appends its chat and raises the success alert; a 404 raises the error alert; any other failure changes nothing |
| UseSocket.WsBase | frontend/src/hooks/useSocket.ts:13 | the option, else the environment, else "ws://localhost:5050"; an empty string counts as unset, and the result is never empty |
| UseSocket.TokenOf | frontend/src/hooks/useSocket.ts:14 | the `getToken` option's answer when given, else the stored token |
| UseSocket.QueryOf | frontend/src/hooks/useSocket.ts:15-16 | a URL has a query exactly when it has a '?' |
| UseSocket.UrlCarriesToken | frontend/src/hooks/useSocket.ts:15-16 | the URL's query is "token=" + the encoded token for a non-empty token, and absent otherwise |
| UseSocket.SocketHook.Effect | frontend/src/hooks/useSocket.ts:12-19 | a new connecting socket on the built URL becomes current |
| UseSocket.SocketHook.OnOpen | frontend/src/hooks/useSocket.ts:21 | the socket is open and `connected` is set |
| UseSocket.SocketHook.OnClose | frontend/src/hooks/useSocket.ts:22 | the socket is closed and `connected` is cleared, whichever run it belonged to |
| UseSocket.SocketHook.Cleanup | frontend/src/hooks/useSocket.ts:27-30 | the run's socket starts closing and the ref is cleared |
| UseSocket.SocketHook.SendMessage | frontend/src/hooks/useSocket.ts:33-39 | the payload goes out exactly when the current socket is open; otherwise nothing is sent |
| UseSocket.StaleCloseClearsConnected | frontend/src/hooks/useSocket.ts:21-30 | the old socket's late close clears `connected` while the new socket is open and sends |
| Browser.Window.Token | frontend/src/pages/HomePage.tsx:18 | the stored access token, or none |
| HomePage.Home.Mount | frontend/src/pages/HomePage.tsx:17-31 | without a token, go to /login and request nothing; otherwise ask /me with the bearer header |
| HomePage.Home.MeAnswered | frontend/src/pages/HomePage.tsx:29-30 | a profile ends the loading; a failure goes to /login |
| HomePage.Home.HandleChatSelect | frontend/src/pages/HomePage.tsx:35-40 | sets the user id, username, display name and chat id together; the chat view shows once loading has ended |
| HomePage.Home.ResetSelect | frontend/src/pages/HomePage.tsx:42-44 | only the chat id is cleared, and the chat view hides |
| HomePage.PickCloseAndPickAgain | frontend/src/pages/HomePage.tsx:17-60 | the chat view shows after a pick, hides after a close and shows after the next pick |
| LoginPage.LoginForm.SetUsername | frontend/src/pages/LoginPage.tsx:46-49 | the field is set and the error cleared |
| LoginPage.LoginForm.SetPassword | frontend/src/pages/LoginPage.tsx:59-62 | the field is set and the error cleared |
| LoginPage.LoginForm.HandleLogin | frontend/src/pages/LoginPage.tsx:13-32 | an empty field shows "Please, fill all fields before" and sends nothing; success stores the token under "accessToken" and goes to "/"; a failure shows the login error and stores nothing |
| LoginPage.LoginThenToken | frontend/src/pages/LoginPage.tsx:22-25 | after a login, the home page finds the issued token |
| RegisterPage.RegisterForm.SetField | frontend/src/pages/RegisterPage.tsx:49-92 | the edited field is set, the others kept, and the error cleared |
| RegisterPage.RegisterForm.HandleRegister | frontend/src/pages/RegisterPage.tsx:15-35 | an empty field sends nothing; login is posted only after registration succeeds; the token is stored and "/" opened only when both succeed; either failure shows "Registration failed. Please try again" |
| RegisterPage.ShortPasswordIsPosted | frontend/src/pages/RegisterPage.tsx:88 | the declared password pattern is not checked: a three-letter password is posted |

## Left out

- Password hashing, JWT signing and verifying, the clock, `encodeURIComponent` and `JSON.stringify` are parameters. The model does not cover their algorithms.
- The store's SQL is modelled on sequences in insertion order. Queries without ORDER BY (`.first()`, GET /chats, chat members) are read in that order. `ORDER BY sent_time` is modelled by requiring that the clock never goes back when a message is stored.
- A legacy single-entity query returns each primary key once. So GET /chats lists each chat once and each member once, and a chat of a user with themself has one member.
- `backend/database.py` declares `content` NOT NULL and has no `reply_content` column, unlike the handlers. The model follows the handlers on `content`.
- File uploads: the bytes are not modelled, and writing them to disk is not modelled. An image is its file name and becomes `/uploads/<name>`.
- Concurrency between requests and between sockets is not modelled. `Connections.ConnectionManager.Serve` takes the other clients to be idle. An exception thrown by one `send_json` in a broadcast is not modelled.
- `backend/routes/messages.py` imports a `websocket` module that is not part of this model. Its `manager` is taken to be the `ConnectionManager` of `backend/main.py`.
- Messages.SendMessage: the 500 that `backend/routes/messages.py:41` raises for any image is modelled only by `Messages.SendCheckAsWritten`. The handler uses the corrected checks, which are the behaviour of `backend/main.py`.
- Users.Register: uses the corrected 400 for a taken email. The as-written 500 is `Users.RegisterCheckAsWritten`.
- Chats.CreateChat: uses the corrected `Chats.ExistingChat`. The as-written query is `Chats.ExistingChatAsWritten`.
- ChatsPanel.Panel.HandleSearchClick: uses the corrected `ChatsPanel.Appended`. The as-written append is `ChatsPanel.AppendedAsWritten`.
- Rendering (markup, scrolling, the 300 ms delay before a history fetch, alert timers) is not modelled. Console logging (`onerror`, caught errors) is not modelled either.
- The socket hook's `onerror` only logs, so it has no member.
- No component calls the socket hook. The chat view opens its own socket on `ws://localhost:5000`, and its URL is not modelled.
- On the login and sign-up pages the native `required` and `pattern` checks do not run, because the button's click handler cancels the submit. For those two forms the model checks only what the handlers check. The chat view's form is submitted through `onSubmit`, so its `required` text area does block an empty submit, as `ChatWindow.ChatView.Submit` states. The Enter key bypasses the form, as `ChatWindow.ChatView.SendMessage` states.
- Replay.ReplayFromEmpty: assumes that no two new-message frames carry the same id, because the server's message ids are never reused.
- The logout in the page header and the routes table are not part of this model.

## Findings

| source | as written | input that shows it | evidently intended | confidence | as-written member | corrected member |
|---|---|---|---|---|---|---|
| backend/routes/users.py:35-37 | catches `IntegrityError`, a name the module never imports, so a duplicate email raises NameError and answers 500. `backend/main.py:184` catches psycopg2's class, which SQLAlchemy wraps, so it answers 500 too | register a new username with an email already stored | 400 "Error creating user" | not executed | Users.DuplicateEmailAsWritten | Users.RegisterCheck |
| backend/routes/chats.py:19-29 | counts the participant rows of either user per chat, so a chat of the caller with themself has two rows and matches | user 7 has a chat (1) with themself and a chat (2) with user 8; user 7 opens a chat with user 8 | chat 2 is found | not executed | Chats.SelfChatMatchesAsWritten | Chats.SelfChatSkippedAsIntended |
| backend/routes/messages.py:41 | calls `shutil`, which the module never imports, so every send with an image fails with 500 | any POST /messages with an image | the image is stored and the message sent | not executed | Messages.ImageSendFailsAsWritten | Messages.SendCheck |
| frontend/src/components/ChatsPanel.tsx:68-72 | appends the reply's chat even when the reply is "Chat already exists", which has no `participants`; rendering then reads `.find` of undefined and throws | search for a user one already has a chat with | the existing chat is not appended again | not executed | ChatsPanel.ExistingChatCrashesPanel | ChatsPanel.Appended |
