/**
 * The socket hook of the client: the URL it connects to, the `connected`
 * flag the socket's events set, the open-guard of `sendMessage`, and the
 * cleanup that closes the socket of the finished run. The browser's
 * sockets are ids with a ready state; `encode` stands for
 * `encodeURIComponent`. (No component of the app calls this hook: the chat
 * view opens its own socket.)
 */
module UseSocket {
  import opened Base

  type Conn = int
  type Json = string

  datatype ReadyState = Connecting | Open | Closing | Closed

  /** One `send` on a socket. */
  datatype Sent = Sent(to: Conn, payload: Json)

  const DefaultWsBase := "ws://localhost:5050"

  /**
   * The base of the socket URL: the option, else the environment's
   * setting, else the default; an empty string counts as unset.
   */
  function WsBase(optWsBase: Option<string>, env: Option<string>): (r: string)
    ensures Truthy(optWsBase) ==> r == optWsBase.value
    ensures !Truthy(optWsBase) && Truthy(env) ==> r == env.value
    ensures !Truthy(optWsBase) && !Truthy(env) ==> r == DefaultWsBase
    ensures r != ""
  {
    if Truthy(optWsBase) then optWsBase.value
    else if Truthy(env) then env.value
    else DefaultWsBase
  }

  /**
   * The token: what the `getToken` option answers when the option is given
   * (`getToken == Some(answer)`), else the stored access token.
   */
  function TokenOf(getToken: Option<Option<string>>, stored: Option<string>): (r: Option<string>)
    ensures getToken.Some? ==> r == getToken.value
    ensures getToken.None? ==> r == stored
  {
    if getToken.Some? then getToken.value else stored
  }

  /** The query part carrying the token: present only for a non-empty token. */
  function TokenPart(token: Option<string>, encode: string -> string): string {
    if Truthy(token) then "?token=" + encode(token.value) else ""
  }

  /** The socket URL of chat `chatId` (the chat id as text). */
  function Url(base: string, chatId: string, tokenPart: string): string {
    base + "/ws/chat/" + chatId + tokenPart
  }

  predicate NoQuestionMark(s: string) {
    forall i :: 0 <= i < |s| ==> s[i] != '?'
  }

  /** The query of a URL: what follows its first '?', if it has one. */
  function QueryOf(url: string): (r: Option<string>)
    ensures r.None? <==> NoQuestionMark(url)
    ensures r.Some? ==> |r.value| < |url|
  {
    if url == [] then None
    else if url[0] == '?' then Some(url[1..])
    else
      var r := QueryOf(url[1..]);
      assert NoQuestionMark(url) <==> NoQuestionMark(url[1..]) by {
        if NoQuestionMark(url[1..]) {
          forall i | 1 <= i < |url| ensures url[i] != '?' {
            assert url[i] == url[1..][i - 1];
          }
        }
      }
      r
  }

  lemma {:induction false} QueryOfConcat(a: string, b: string)
    requires NoQuestionMark(a)
    ensures QueryOf(a + b) == QueryOf(b)
  {
    if a != [] {
      assert (a + b)[0] == a[0];
      assert (a + b)[1..] == a[1..] + b;
      QueryOfConcat(a[1..], b);
    } else {
      assert a + b == b;
    }
  }

  lemma NoQuestionMarkConcat(a: string, b: string)
    requires NoQuestionMark(a) && NoQuestionMark(b)
    ensures NoQuestionMark(a + b)
  {
    forall i | 0 <= i < |a + b| ensures (a + b)[i] != '?' {
      if i >= |a| {
        assert (a + b)[i] == b[i - |a|];
      }
    }
  }

  lemma PathHasNoMark(base: string, chatId: string)
    requires NoQuestionMark(base) && NoQuestionMark(chatId)
    ensures NoQuestionMark(base + "/ws/chat/" + chatId)
  {
    assert NoQuestionMark("/ws/chat/");
    NoQuestionMarkConcat(base, "/ws/chat/");
    NoQuestionMarkConcat(base + "/ws/chat/", chatId);
  }

  lemma QueryAfterMark(query: string)
    ensures QueryOf(['?'] + query) == Some(query)
  {
    assert (['?'] + query)[1..] == query;
  }

  /**
   * The URL carries the token and nothing else in its query: for a
   * non-empty token the query is "token=" and the encoded token, and
   * without one there is no query.
   */
  lemma UrlCarriesToken(base: string, chatId: string, token: Option<string>, encode: string -> string)
    requires NoQuestionMark(base) && NoQuestionMark(chatId)
    ensures QueryOf(Url(base, chatId, TokenPart(token, encode))) ==
            if Truthy(token) then Some("token=" + encode(token.value)) else None
  {
    var path := base + "/ws/chat/" + chatId;
    PathHasNoMark(base, chatId);
    var part := TokenPart(token, encode);
    assert Url(base, chatId, part) == path + part;
    QueryOfConcat(path, part);
    if Truthy(token) {
      var query := "token=" + encode(token.value);
      assert part == ['?'] + query;
      QueryAfterMark(query);
    } else {
      assert part == [];
    }
  }

  /** The state of one mounted hook and of the sockets it has opened. */
  class SocketHook {
    /** `wsRef.current`. */
    var current: Option<Conn>
    var connected: bool
    var states: map<Conn, ReadyState>
    var outbox: seq<Sent>

    predicate Valid()
      reads this
    {
      current.Some? ==> current.value in states
    }

    constructor ()
      ensures Valid() && current.None? && !connected && states == map[] && outbox == []
    {
      current := None;
      connected := false;
      states := map[];
      outbox := [];
    }

    /** A run of the effect: socket `ws` opened on the URL built from the options, the environment and storage. */
    method Effect(optWsBase: Option<string>, env: Option<string>, getToken: Option<Option<string>>,
                  stored: Option<string>, encode: string -> string, chatId: string, ws: Conn)
      returns (url: string)
      requires ws !in states
      modifies this`current, this`states
      ensures Valid()
      ensures url == Url(WsBase(optWsBase, env), chatId, TokenPart(TokenOf(getToken, stored), encode))
      ensures current == Some(ws) && states == old(states)[ws := Connecting]
    {
      var base := WsBase(optWsBase, env);
      var token := TokenOf(getToken, stored);
      url := Url(base, chatId, TokenPart(token, encode));
      states := states[ws := Connecting];
      current := Some(ws);
    }

    /** The `open` event of socket `ws`. */
    method OnOpen(ws: Conn)
      requires ws in states && states[ws] == Connecting
      requires Valid()
      modifies this`connected, this`states
      ensures Valid()
      ensures connected && states == old(states)[ws := Open]
    {
      states := states[ws := Open];
      connected := true;
    }

    /** The `close` event of socket `ws`, whichever run it belonged to. */
    method OnClose(ws: Conn)
      requires ws in states && states[ws] != Closed
      requires Valid()
      modifies this`connected, this`states
      ensures Valid()
      ensures !connected && states == old(states)[ws := Closed]
    {
      states := states[ws := Closed];
      connected := false;
    }

    /** The cleanup of the run that opened `ws`: close it and clear the ref. */
    method Cleanup(ws: Conn)
      requires Valid() && current == Some(ws)
      modifies this`current, this`states
      ensures Valid()
      ensures current.None?
      ensures states == old(states)[ws := if old(states)[ws] in {Connecting, Open} then Closing else old(states)[ws]]
    {
      if states[ws] == Connecting || states[ws] == Open {
        states := states[ws := Closing];
      }
      current := None;
    }

    /** `sendMessage`: the payload goes out only on an open socket; otherwise it is dropped. */
    method SendMessage(payload: Json) returns (sent: bool)
      requires Valid()
      modifies this`outbox
      ensures sent <==> current.Some? && states[current.value] == Open
      ensures outbox == if sent then old(outbox) + [Sent(current.value, payload)] else old(outbox)
    {
      if current.Some? && states[current.value] == Open {
        outbox := outbox + [Sent(current.value, payload)];
        return true;
      }
      return false;
    }
  }

  /**
   * The chat id changes: the first socket is closed and a second one opens.
   * When the first socket's `close` event arrives last, `connected` reads
   * false while the current socket is open and still sends.
   */
  method StaleCloseClearsConnected(encode: string -> string, ws1: Conn, ws2: Conn)
    returns (connected: bool, sent: bool)
    requires ws1 != ws2
    ensures !connected && sent
  {
    var hook := new SocketHook();
    var url1 := hook.Effect(None, None, None, Some("t"), encode, "1", ws1);
    hook.OnOpen(ws1);
    hook.Cleanup(ws1);
    var url2 := hook.Effect(None, None, None, Some("t"), encode, "2", ws2);
    hook.OnOpen(ws2);
    hook.OnClose(ws1);
    connected := hook.connected;
    sent := hook.SendMessage("{}");
  }
}
