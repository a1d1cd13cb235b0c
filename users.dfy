/**
 * The account handlers of the server: register, log in, list and delete
 * users, and `/me`. Password hashing is not modelled: `hashed` is what the
 * hash of the new password came out as, and `check` stands for comparing a
 * password with a stored hash. `encode` stands for signing a payload.
 */
module Users {
  import opened Base
  import opened Seqs
  import opened Database
  import opened Auth
  import Messages

  datatype Registered = Registered(id: int, username: string)
  datatype LoginReply = LoginReply(accessToken: string, tokenType: string)
  datatype UserSummary = UserSummary(id: int, username: string)
  datatype Profile = Profile(id: int, username: string, displayName: Option<string>)

  predicate NameTaken(users: seq<User>, username: string) {
    exists i :: 0 <= i < |users| && users[i].username == username
  }

  predicate EmailTaken(users: seq<User>, email: string) {
    exists i :: 0 <= i < |users| && users[i].email == email
  }

  /**
   * Why a registration is refused: 400 for a taken username, checked first;
   * then 400 "Error creating user" when the store's unique email constraint
   * refuses the row.
   */
  function RegisterCheck(users: seq<User>, username: string, email: string): (r: Option<Failure>)
    ensures NameTaken(users, username) ==> r == Some(HttpError(400, "Username already exists"))
    ensures !NameTaken(users, username) && EmailTaken(users, email) ==>
              r == Some(HttpError(400, "Error creating user"))
    ensures r.None? <==> !NameTaken(users, username) && !EmailTaken(users, email)
  {
    if UserByName(users, username).Some? then Some(HttpError(BadRequest, "Username already exists"))
    else if FindFirst(users, (u: User) => u.email == email).Some? then
      Some(HttpError(BadRequest, "Error creating user"))
    else None
  }

  /**
   * The same checks as written: the handler catches `IntegrityError`, a name
   * the module never imports, so when the email constraint fires, evaluating
   * the `except` clause raises a NameError and the answer is a 500.
   */
  function RegisterCheckAsWritten(users: seq<User>, username: string, email: string): Option<Failure> {
    if UserByName(users, username).Some? then Some(HttpError(BadRequest, "Username already exists"))
    else if FindFirst(users, (u: User) => u.email == email).Some? then Some(Internal)
    else None
  }

  /** As written, registering a fresh username with a taken email is a 500, not the intended 400. */
  lemma DuplicateEmailAsWritten(u: User, username: string)
    requires u.username != username
    ensures RegisterCheckAsWritten([u], username, u.email) == Some(Internal)
    ensures RegisterCheck([u], username, u.email) == Some(HttpError(400, "Error creating user"))
  {
    assert EmailTaken([u], u.email) by { assert [u][0].email == u.email; }
  }

  /** The user row a registration stores. */
  function NewUser(t: Tables, username: string, displayName: string, email: string, hashed: string): User {
    User(t.nextUserId, username, Some(displayName), email, hashed)
  }

  /**
   * POST /register. A refused registration changes nothing; an accepted one
   * stores exactly one user, with the hashed password, under the next id,
   * and answers with that id and username.
   */
  method Register(db: Db, username: string, displayName: string, email: string, hashed: string)
    returns (r: Response<Registered>)
    requires Valid(db.State())
    modifies db
    ensures Valid(db.State())
    ensures RegisterCheck(old(db.users), username, email).Some? ==>
              r == Fail(RegisterCheck(old(db.users), username, email).value) &&
              db.State() == old(db.State())
    ensures RegisterCheck(old(db.users), username, email).None? ==>
              var u := NewUser(old(db.State()), username, displayName, email, hashed);
              && db.State() == old(db.State()).(users := old(db.users) + [u], nextUserId := u.id + 1)
              && r == Ok(Registered(u.id, username))
  {
    var failure := RegisterCheck(db.users, username, email);
    if failure.Some? {
      return Fail(failure.value);
    }
    var u := NewUser(db.State(), username, displayName, email, hashed);
    db.users := db.users + [u];
    db.nextUserId := db.nextUserId + 1;
    r := Ok(Registered(u.id, username));
  }

  /**
   * POST /login. An unknown username and a wrong password get the same 401;
   * otherwise the reply is a bearer token whose payload names the user in
   * `sub`, with the default lifetime.
   */
  function Login(users: seq<User>, username: string, password: string, check: (string, string) -> bool,
                 encode: map<string, Claim> -> string, now: int, expireMinutes: int): (r: Response<LoginReply>)
    ensures r.Fail? <==> UserByName(users, username).None? ||
                         !check(password, UserByName(users, username).value.passwordHash)
    ensures r.Fail? ==> r.failure == HttpError(401, "Invalid credentials")
    ensures r.Ok? ==> r.value.tokenType == "bearer" &&
                      r.value.accessToken ==
                        encode(CreateAccessToken(map["sub" := Text(username)], None, now, expireMinutes))
  {
    var found := UserByName(users, username);
    if found.None? || !check(password, found.value.passwordHash) then
      Fail(HttpError(Unauthorized, "Invalid credentials"))
    else
      Ok(LoginReply(encode(CreateAccessToken(map["sub" := Text(found.value.username)], None, now,
                                             expireMinutes)), "bearer"))
  }

  /**
   * Register, then log in with the password whose hash was stored, then
   * present the token: the caller is the new user. `decode` verifies a
   * token back to the payload it was signed with.
   */
  lemma RegisterLoginAuthenticates(t: Tables, username: string, displayName: string, email: string,
                                   password: string, hashed: string, check: (string, string) -> bool,
                                   encode: map<string, Claim> -> string, decode: string -> Decoded,
                                   now: int, expireMinutes: int)
    requires Valid(t)
    requires RegisterCheck(t.users, username, email).None?
    requires check(password, hashed)
    requires forall c :: decode(encode(c)) == Payload(c)
    requires var token := encode(CreateAccessToken(map["sub" := Text(username)], None, now, expireMinutes));
             forall i :: 0 <= i < |token| ==> token[i] != ' '
    ensures var users := t.users + [NewUser(t, username, displayName, email, hashed)];
            var reply := Login(users, username, password, check, encode, now, expireMinutes);
            && reply.Ok?
            && CurrentUser(Some("Bearer " + reply.value.accessToken), decode, users) ==
               Ok(NewUser(t, username, displayName, email, hashed))
  {
    var u := NewUser(t, username, displayName, email, hashed);
    var users := t.users + [u];
    assert users[|t.users|] == u;
    forall i, j | 0 <= i < j < |users| ensures users[i].username != users[j].username {
      if j == |t.users| {
        assert users[i] == t.users[i];
      }
    }
    FindFirstAt(users, (v: User) => v.username == username, |t.users|);
    var claims := CreateAccessToken(map["sub" := Text(username)], None, now, expireMinutes);
    IssuedTokenAuthenticates(u, users, encode(claims), decode, None, now, expireMinutes);
  }

  /** GET /users: the id and username of every user, in store order. */
  function UserList(users: seq<User>): (r: seq<UserSummary>)
    ensures |r| == |users|
    ensures forall i :: 0 <= i < |users| ==> r[i] == UserSummary(users[i].id, users[i].username)
  {
    if users == [] then [] else [UserSummary(users[0].id, users[0].username)] + UserList(users[1..])
  }

  /** GET /me: the caller's id, username and display name. */
  function Me(header: Option<string>, decode: string -> Decoded, users: seq<User>): (r: Response<Profile>)
    ensures r.Fail? <==> CurrentUser(header, decode, users).Fail?
    ensures r.Fail? ==> r.failure == CurrentUser(header, decode, users).failure
    ensures r.Ok? ==> var u := CurrentUser(header, decode, users).value;
                      r.value == Profile(u.id, u.username, u.displayName)
    ensures r.Ok? ==> exists i :: 0 <= i < |users| &&
                        r.value == Profile(users[i].id, users[i].username, users[i].displayName)
  {
    var caller := CurrentUser(header, decode, users);
    if caller.Fail? then Fail(caller.failure)
    else
      var u := caller.value;
      Ok(Profile(u.id, u.username, u.displayName))
  }

  /** A token issued for a stored user, presented as "Bearer <token>", makes GET /me answer that user's profile. */
  lemma MeOfIssuedToken(u: User, users: seq<User>, token: string, decode: string -> Decoded,
                        expiresDelta: Option<int>, now: int, expireMinutes: int)
    requires u in users
    requires forall i, j :: 0 <= i < j < |users| ==> users[i].username != users[j].username
    requires forall i :: 0 <= i < |token| ==> token[i] != ' '
    requires decode(token) ==
             Payload(CreateAccessToken(map["sub" := Text(u.username)], expiresDelta, now, expireMinutes))
    ensures Me(Some("Bearer " + token), decode, users) == Ok(Profile(u.id, u.username, u.displayName))
  {
    IssuedTokenAuthenticates(u, users, token, decode, expiresDelta, now, expireMinutes);
  }

  /**
   * DELETE /users/{id}. An unknown id makes the handler delete None; it
   * catches the exception that raises, rolls back and answers 500 with the
   * exception's text, `deleteNoneError` (the store library's message, not
   * modelled). Otherwise the user row is removed, and with it the user's
   * participant rows; the user's messages stay.
   */
  method DeleteUser(db: Db, userId: int, deleteNoneError: string) returns (r: Response<string>)
    requires Valid(db.State())
    modifies db
    ensures Valid(db.State())
    ensures UserById(old(db.users), userId).None? ==>
              r == Fail(HttpError(500, deleteNoneError)) && db.State() == old(db.State())
    ensures UserById(old(db.users), userId).Some? ==>
              && r == Ok(UserById(old(db.users), userId).value.username)
              && db.State() == old(db.State()).(
                   users := Filter(old(db.users), (u: User) => u.id != userId),
                   participants := Filter(old(db.participants), (p: Participant) => p.userId != userId))
  {
    var found := UserById(db.users, userId);
    if found.None? {
      return Fail(HttpError(500, deleteNoneError));
    }
    db.users := Filter(db.users, (u: User) => u.id != userId);
    db.participants := Filter(db.participants, (p: Participant) => p.userId != userId);
    DeleteUserKeepsValid(old(db.State()), userId);
    r := Ok(found.value.username);
  }

  lemma DeleteUserKeepsValid(t: Tables, userId: int)
    requires Valid(t)
    ensures Valid(t.(users := Filter(t.users, (u: User) => u.id != userId),
                     participants := Filter(t.participants, (p: Participant) => p.userId != userId)))
  {
    var users := Filter(t.users, (u: User) => u.id != userId);
    var ps := Filter(t.participants, (p: Participant) => p.userId != userId);
    FilterPairwise(t.users, (u: User) => u.id != userId,
                   (a: User, b: User) => a.id != b.id && a.username != b.username && a.email != b.email);
    forall i | 0 <= i < |users| ensures users[i].id < t.nextUserId {
      assert users[i] in t.users;
    }
    forall i | 0 <= i < |ps| ensures ps[i].id < t.nextParticipantId && ps[i].chatId in t.chats {
      assert ps[i] in t.participants;
    }
  }

  /**
   * Deleting a user leaves their messages behind without a sender, so the
   * listing of any chat that holds one of them fails from then on.
   */
  lemma DeletedSenderBreaksListing(t: Tables, userId: int, callerId: int, chatId: int, k: int)
    requires Valid(t)
    requires 0 <= k < |t.messages| && t.messages[k].chatId == chatId && t.messages[k].senderId == userId
    ensures var after := t.(users := Filter(t.users, (u: User) => u.id != userId));
            Messages.Listing(after, callerId, chatId).Fail?
  {
    var users := Filter(t.users, (u: User) => u.id != userId);
    var rows := RowsOf(t.messages, chatId);
    assert t.messages[k] in rows;
    var j :| 0 <= j < |rows| && rows[j] == t.messages[k];
    forall i | 0 <= i < |users| ensures users[i].id != userId {
      assert users[i] in users;
    }
    assert UserById(users, rows[j].senderId).None?;
  }
}
