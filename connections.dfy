/**
 * The server's live channel: the registry of open sockets per chat, the
 * broadcast of one JSON value to every socket of a chat, and the socket
 * endpoint that rebroadcasts whatever a client sends. Sockets are opaque
 * ids; a JSON value is its text. Sending is not modelled: a broadcast
 * answers the deliveries it makes, in order.
 */
module Connections {
  import opened Seqs

  type Conn = int
  type Json = string

  /** One `send_json` call: `payload` written to socket `to`. */
  datatype Delivery = Delivery(to: Conn, payload: Json)

  /** No chat id maps to an empty list. */
  predicate NoEmptyLists(m: map<int, seq<Conn>>) {
    forall c :: c in m ==> m[c] != []
  }

  /** The registry after `connect`: the socket appended to its chat's list, created empty when absent. */
  function Connected(m: map<int, seq<Conn>>, chatId: int, ws: Conn): (r: map<int, seq<Conn>>)
    ensures r.Keys == m.Keys + {chatId}
    ensures r[chatId] == (if chatId in m then m[chatId] else []) + [ws]
    ensures forall c :: c in m && c != chatId ==> r[c] == m[c]
  {
    m[chatId := (if chatId in m then m[chatId] else []) + [ws]]
  }

  /**
   * The registry after `disconnect`: one occurrence of the socket removed
   * (the first, with the others kept in order: `DisconnectedKeepsOrder`),
   * an emptied chat dropped.
   */
  function Disconnected(m: map<int, seq<Conn>>, chatId: int, ws: Conn): (r: map<int, seq<Conn>>)
    requires chatId in m && ws in m[chatId]
    ensures multiset(if chatId in r then r[chatId] else []) == multiset(m[chatId]) - multiset{ws}
    ensures r.Keys <= m.Keys
    ensures forall c :: c in m && c != chatId ==> c in r && r[c] == m[c]
    ensures chatId !in r <==> m[chatId] == [ws]
  {
    var rest := RemoveFirst(m[chatId], ws);
    if rest == [] then m - {chatId} else m[chatId := rest]
  }

  /**
   * `disconnect` removes the first occurrence of the socket: when `k` is the
   * first index holding it, the chat's other sockets stay, in connection
   * order, and the chat is dropped when none remain.
   */
  lemma DisconnectedKeepsOrder(m: map<int, seq<Conn>>, chatId: int, ws: Conn, k: int)
    requires chatId in m && 0 <= k < |m[chatId]| && m[chatId][k] == ws
    requires forall i :: 0 <= i < k ==> m[chatId][i] != ws
    ensures var r := Disconnected(m, chatId, ws);
            (if chatId in r then r[chatId] else []) == m[chatId][..k] + m[chatId][k + 1..]
  {
    RemoveFirstAt(m[chatId], ws, k);
  }

  /** Connecting keeps the registry free of empty lists, and so does disconnecting. */
  lemma RegistryStaysNonEmpty(m: map<int, seq<Conn>>, chatId: int, ws: Conn)
    requires NoEmptyLists(m)
    ensures NoEmptyLists(Connected(m, chatId, ws))
    ensures chatId in m && ws in m[chatId] ==> NoEmptyLists(Disconnected(m, chatId, ws))
  {
  }

  /** A socket that connects and then disconnects leaves the registry as it found it. */
  lemma ConnectThenDisconnect(m: map<int, seq<Conn>>, chatId: int, ws: Conn)
    requires chatId in m ==> ws !in m[chatId]
    requires NoEmptyLists(m)
    ensures Disconnected(Connected(m, chatId, ws), chatId, ws) == m
  {
    if chatId in m {
      ReconnectKnownChat(m, chatId, ws);
    } else {
      ReconnectNewChat(m, chatId, ws);
    }
  }

  lemma ReconnectKnownChat(m: map<int, seq<Conn>>, chatId: int, ws: Conn)
    requires chatId in m && ws !in m[chatId] && m[chatId] != []
    ensures Disconnected(Connected(m, chatId, ws), chatId, ws) == m
  {
    var m' := m[chatId := m[chatId] + [ws]];
    RemoveFirstAppended(m[chatId], ws);
    assert m'[chatId := m[chatId]] == m;
  }

  lemma ReconnectNewChat(m: map<int, seq<Conn>>, chatId: int, ws: Conn)
    requires chatId !in m
    ensures Disconnected(Connected(m, chatId, ws), chatId, ws) == m
  {
    var m' := m[chatId := [ws]];
    assert RemoveFirst([ws], ws) == [];
    assert m' - {chatId} == m;
  }

  /** Who receives a broadcast to `chatId`: its sockets in connection order, or nobody. */
  function Recipients(m: map<int, seq<Conn>>, chatId: int): seq<Conn> {
    if chatId in m then m[chatId] else []
  }

  /**
   * The deliveries of one rebroadcast value: one to each of `others`, in
   * order, then one back to the sender `ws`.
   */
  predicate Echoed(out: seq<Delivery>, others: seq<Conn>, ws: Conn, payload: Json) {
    && |out| == |others| + 1
    && out[|out| - 1] == Delivery(ws, payload)
    && forall k :: 0 <= k < |others| ==> out[k] == Delivery(others[k], payload)
  }

  /** The registry of the socket endpoint: open sockets per chat id. */
  class ConnectionManager {
    var active: map<int, seq<Conn>>

    predicate Valid()
      reads this
    {
      NoEmptyLists(active)
    }

    constructor ()
      ensures active == map[] && Valid()
    {
      active := map[];
    }

    /** Register `ws` for `chatId` (the handshake is not modelled). */
    method Connect(chatId: int, ws: Conn)
      requires Valid()
      modifies this
      ensures Valid()
      ensures active == Connected(old(active), chatId, ws)
    {
      if chatId !in active {
        active := active[chatId := []];
      }
      active := active[chatId := active[chatId] + [ws]];
    }

    /**
     * Unregister `ws` from `chatId`. An unknown chat id (KeyError) or a
     * socket not in its list (ValueError) raises: the answer is false and
     * nothing changes.
     */
    method Disconnect(chatId: int, ws: Conn) returns (ok: bool)
      requires Valid()
      modifies this
      ensures Valid()
      ensures ok <==> chatId in old(active) && ws in old(active)[chatId]
      ensures ok ==> active == Disconnected(old(active), chatId, ws)
      ensures !ok ==> active == old(active)
    {
      if chatId !in active || ws !in active[chatId] {
        return false;
      }
      active := active[chatId := RemoveFirst(active[chatId], ws)];
      if active[chatId] == [] {
        active := active - {chatId};
      }
      ok := true;
    }

    /** Send `message` to every socket of `chatId`, one after the other; nothing when the chat has none. */
    method Broadcast(chatId: int, message: Json) returns (sent: seq<Delivery>)
      ensures |sent| == |Recipients(active, chatId)|
      ensures forall i :: 0 <= i < |sent| ==> sent[i] == Delivery(Recipients(active, chatId)[i], message)
    {
      sent := [];
      if chatId in active {
        var conns := active[chatId];
        var i := 0;
        while i < |conns|
          invariant 0 <= i <= |conns| && |sent| == i
          invariant forall k :: 0 <= k < i ==> sent[k] == Delivery(conns[k], message)
        {
          sent := sent + [Delivery(conns[i], message)];
          i := i + 1;
        }
      }
    }

    /**
     * The socket endpoint for one client: connect, rebroadcast each JSON
     * value it sends to every socket of its chat (itself included), and
     * disconnect when the client goes away. Other clients are taken to be
     * idle meanwhile.
     */
    method Serve(chatId: int, ws: Conn, received: seq<Json>) returns (sent: seq<seq<Delivery>>)
      requires Valid()
      requires chatId in active ==> ws !in active[chatId]
      modifies this
      ensures Valid()
      ensures active == old(active)
      ensures |sent| == |received|
      ensures forall i :: 0 <= i < |received| ==> Echoed(sent[i], Recipients(old(active), chatId), ws, received[i])
    {
      ghost var before := active;
      Connect(chatId, ws);
      assert Recipients(active, chatId) == Recipients(before, chatId) + [ws];
      sent := [];
      var i := 0;
      while i < |received|
        invariant 0 <= i <= |received| && |sent| == i
        invariant Valid() && active == Connected(before, chatId, ws)
        invariant forall j :: 0 <= j < i ==> Echoed(sent[j], Recipients(before, chatId), ws, received[j])
      {
        var out := Broadcast(chatId, received[i]);
        assert Echoed(out, Recipients(before, chatId), ws, received[i]);
        sent := sent + [out];
        i := i + 1;
      }
      var ok := Disconnect(chatId, ws);
      ConnectThenDisconnect(before, chatId, ws);
    }
  }

  /**
   * The registry of the endpoint function the app never routes to: it
   * appends on connect and removes on a disconnect, but leaves an emptied
   * chat id in place.
   */
  class LegacyRegistry {
    var connections: map<int, seq<Conn>>

    constructor ()
      ensures connections == map[]
    {
      connections := map[];
    }

    method Connect(chatId: int, ws: Conn)
      modifies this
      ensures connections == Connected(old(connections), chatId, ws)
    {
      if chatId !in connections {
        connections := connections[chatId := []];
      }
      connections := connections[chatId := connections[chatId] + [ws]];
    }

    /** Remove one occurrence of `ws`; false (an exception) when the chat id or the socket is unknown. */
    method Disconnect(chatId: int, ws: Conn) returns (ok: bool)
      modifies this
      ensures ok <==> chatId in old(connections) && ws in old(connections)[chatId]
      ensures ok ==> connections == old(connections)[chatId := RemoveFirst(old(connections)[chatId], ws)]
      ensures !ok ==> connections == old(connections)
    {
      if chatId !in connections || ws !in connections[chatId] {
        return false;
      }
      connections := connections[chatId := RemoveFirst(connections[chatId], ws)];
      ok := true;
    }
  }

  /**
   * The two registries part ways on the last socket of a chat: the manager
   * drops the chat id, the legacy registry keeps it with an empty list.
   */
  lemma LastDisconnectDiffers(m: map<int, seq<Conn>>, chatId: int, ws: Conn)
    requires chatId !in m
    ensures var m' := Connected(m, chatId, ws);
            && chatId !in Disconnected(m', chatId, ws)
            && m'[chatId := RemoveFirst(m'[chatId], ws)][chatId] == []
  {
    assert Connected(m, chatId, ws)[chatId] == [ws];
  }
}
