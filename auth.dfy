/**
 * Access tokens: the claims a token is issued with, and the checks that turn
 * an `Authorization` header into the calling user. Signing and verifying
 * (JWT) are not modelled: `decode` stands for verifying a token and reading
 * its payload, `now` for the server clock, in seconds.
 */
module Auth {
  import opened Base
  import opened Database

  /** A payload value: text, or a time (the `exp` claim). */
  datatype Claim = Text(text: string) | Time(at: int)

  /** What verifying a token yields: its payload, or why it was refused. */
  datatype Decoded =
    | Payload(claims: map<string, Claim>)
    | Expired        // the signature is good but `exp` has passed
    | BadToken       // any other refusal: bad signature, malformed token

  /** The lifetime used when no lifetime is given, in minutes (when the environment does not set one). */
  const DefaultExpireMinutes := 60

  /** The seconds a token lives: `expiresDelta` unless absent or zero (a zero timedelta is falsy). */
  function Lifetime(expiresDelta: Option<int>, expireMinutes: int): int {
    if expiresDelta.Some? && expiresDelta.value != 0 then expiresDelta.value else expireMinutes * 60
  }

  /**
   * The payload of a new token: a copy of `data` with `exp` set to now plus
   * the lifetime; every other key keeps its value.
   */
  function CreateAccessToken(data: map<string, Claim>, expiresDelta: Option<int>, now: int,
                             expireMinutes: int): (claims: map<string, Claim>)
    ensures claims.Keys == data.Keys + {"exp"}
    ensures claims["exp"] == Time(now + Lifetime(expiresDelta, expireMinutes))
    ensures forall k :: k in data && k != "exp" ==> claims[k] == data[k]
  {
    data["exp" := Time(now + Lifetime(expiresDelta, expireMinutes))]
  }

  /** Without a lifetime the token lives the default sixty minutes. */
  lemma DefaultLifetime(data: map<string, Claim>, now: int)
    ensures CreateAccessToken(data, None, now, DefaultExpireMinutes)["exp"] == Time(now + 3600)
    ensures CreateAccessToken(data, Some(0), now, DefaultExpireMinutes)["exp"] == Time(now + 3600)
  {
  }

  predicate StartsWith(s: string, prefix: string) {
    |prefix| <= |s| && s[..|prefix|] == prefix
  }

  /** The text of `s` up to its first space (all of `s` when it has none). */
  function UpToSpace(s: string): (r: string)
    ensures |r| <= |s| && r == s[..|r|]
    ensures forall i :: 0 <= i < |r| ==> r[i] != ' '
    ensures |r| == |s| || s[|r|] == ' '
  {
    if s == [] || s[0] == ' ' then [] else [s[0]] + UpToSpace(s[1..])
  }

  /**
   * The second space-separated field of a header that starts with
   * "Bearer ": what follows the prefix, up to the next space.
   */
  function BearerToken(header: string): string
    requires StartsWith(header, "Bearer ")
  {
    UpToSpace(header[7..])
  }

  /** A header "Bearer " + t + rest carries token t when t has no space and rest is empty or starts with one. */
  lemma {:induction false} BearerTokenOf(token: string, rest: string)
    requires forall i :: 0 <= i < |token| ==> token[i] != ' '
    requires rest == [] || rest[0] == ' '
    ensures StartsWith("Bearer " + token + rest, "Bearer ")
    ensures BearerToken("Bearer " + token + rest) == token
  {
    var h := "Bearer " + token + rest;
    assert h[..7] == "Bearer ";
    assert h[7..] == token + rest;
    UpToSpaceOf(token, rest);
  }

  lemma {:induction false} UpToSpaceOf(token: string, rest: string)
    requires forall i :: 0 <= i < |token| ==> token[i] != ' '
    requires rest == [] || rest[0] == ' '
    ensures UpToSpace(token + rest) == token
  {
    if token != [] {
      assert (token + rest)[1..] == token[1..] + rest;
      UpToSpaceOf(token[1..], rest);
    } else {
      assert token + rest == rest;
    }
  }

  /** The `sub` claim is text naming a stored user. */
  predicate NamesUser(users: seq<User>, sub: Claim) {
    sub.Text? && exists i :: 0 <= i < |users| && users[i].username == sub.text
  }

  /**
   * The caller named by an `Authorization` header, checked in order: a
   * missing header or one without the "Bearer " prefix, an expired token,
   * any other refused token, a payload without `sub`, a `sub` naming no user.
   * Every refusal is a 401. A `sub` that is not text names no user.
   */
  function CurrentUser(header: Option<string>, decode: string -> Decoded, users: seq<User>): (r: Response<User>)
    ensures header.None? || !StartsWith(header.value, "Bearer ") ==>
              r == Fail(HttpError(Unauthorized, "Missing or invalid token"))
    ensures header.Some? && StartsWith(header.value, "Bearer ") ==>
              var d := decode(BearerToken(header.value));
              && (d.Expired? ==> r == Fail(HttpError(Unauthorized, "Token expired")))
              && (d.BadToken? ==> r == Fail(HttpError(Unauthorized, "Invalid token")))
              && (d.Payload? && "sub" !in d.claims ==>
                    r == Fail(HttpError(Unauthorized, "Invalid token payload")))
              && (d.Payload? && "sub" in d.claims && !NamesUser(users, d.claims["sub"]) ==>
                    r == Fail(HttpError(Unauthorized, "User not found")))
              && (d.Payload? && "sub" in d.claims && NamesUser(users, d.claims["sub"]) ==>
                    r.Ok? && r.value.username == d.claims["sub"].text)
    ensures r.Fail? ==> r.failure.HttpError? && r.failure.status == Unauthorized
    ensures r.Ok? ==> && r.value in users
                      && header.Some? && StartsWith(header.value, "Bearer ")
                      && decode(BearerToken(header.value)).Payload?
                      && "sub" in decode(BearerToken(header.value)).claims
                      && decode(BearerToken(header.value)).claims["sub"] == Text(r.value.username)
  {
    if !Truthy(header) || !StartsWith(header.value, "Bearer ") then
      Fail(HttpError(Unauthorized, "Missing or invalid token"))
    else
      match decode(BearerToken(header.value))
      case Expired => Fail(HttpError(Unauthorized, "Token expired"))
      case BadToken => Fail(HttpError(Unauthorized, "Invalid token"))
      case Payload(claims) =>
        if "sub" !in claims then Fail(HttpError(Unauthorized, "Invalid token payload"))
        else
          var user := if claims["sub"].Text? then UserByName(users, claims["sub"].text) else None;
          if user.None? then Fail(HttpError(Unauthorized, "User not found")) else Ok(user.value)
  }

  /**
   * A token issued for a stored user, presented as "Bearer <token>" and
   * verified back to the payload it was issued with, authenticates that user.
   */
  lemma IssuedTokenAuthenticates(u: User, users: seq<User>, token: string, decode: string -> Decoded,
                                 expiresDelta: Option<int>, now: int, expireMinutes: int)
    requires u in users
    requires forall i, j :: 0 <= i < j < |users| ==> users[i].username != users[j].username
    requires forall i :: 0 <= i < |token| ==> token[i] != ' '
    requires decode(token) ==
             Payload(CreateAccessToken(map["sub" := Text(u.username)], expiresDelta, now, expireMinutes))
    ensures CurrentUser(Some("Bearer " + token), decode, users) == Ok(u)
  {
    BearerTokenOf(token, []);
    assert "Bearer " + token + [] == "Bearer " + token;
    var found := UserByName(users, u.username);
    var k :| 0 <= k < |users| && users[k] == u;
    assert found.Some?;
    var j :| 0 <= j < |users| && users[j] == found.value;
    assert j == k;
  }
}
