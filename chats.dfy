/**
 * The chat handlers of the server: find-or-create the two-party chat of the
 * caller and another user, and list the caller's chats with their members.
 * The queries have no ORDER BY; the model reads rows in store order.
 */
module Chats {
  import opened Base
  import opened Seqs
  import opened Database
  import opened Users

  datatype Member = Member(id: int, username: string, displayName: Option<string>)
  datatype ChatEntry = ChatEntry(chatId: int, participants: seq<Member>)

  /** The answer of POST /chats: the chat that already existed, or the new one with its two members. */
  datatype Created =
    | AlreadyExists(chatId: int)
    | NewChat(chatId: int, participants: seq<UserSummary>)

  /** The user id of each participant row of chat `chatId`, in store order. */
  function MemberIds(ps: seq<Participant>, chatId: int): seq<int> {
    var rows := Filter(ps, (p: Participant) => p.chatId == chatId);
    seq(|rows|, i requires 0 <= i < |rows| => rows[i].userId)
  }

  /** The members of a chat split over two parts of the table are the members in each part, in order. */
  lemma MemberIdsConcat(a: seq<Participant>, b: seq<Participant>, chatId: int)
    ensures MemberIds(a + b, chatId) == MemberIds(a, chatId) + MemberIds(b, chatId)
  {
    FilterConcat(a, b, (p: Participant) => p.chatId == chatId);
  }

  /**
   * The existing-chat query as written: the first chat with exactly two
   * participant rows whose user is the caller or the other user. A chat of
   * one of them with themselves has two such rows, and so matches as well.
   */
  function ExistingChatAsWritten(t: Tables, callerId: int, otherId: int): Option<int> {
    FindFirst(t.chats, (c: int) =>
      Count(t.participants, (p: Participant) => p.chatId == c && (p.userId == callerId || p.userId == otherId)) == 2)
  }

  /**
   * The existing-chat query as intended: the first chat whose participant
   * rows are exactly the caller and the other user (the caller twice when
   * the caller names themselves).
   */
  function ExistingChat(t: Tables, callerId: int, otherId: int): (r: Option<int>)
    ensures r.Some? ==> r.value in t.chats &&
                        multiset(MemberIds(t.participants, r.value)) == multiset{callerId, otherId}
    ensures r.None? ==> forall i :: 0 <= i < |t.chats| ==>
                          multiset(MemberIds(t.participants, t.chats[i])) != multiset{callerId, otherId}
  {
    FindFirst(t.chats, (c: int) => multiset(MemberIds(t.participants, c)) == multiset{callerId, otherId})
  }

  /** The store of the counterexample: user 7 has a chat with themselves (1) and one with user 8 (2). */
  function SelfChatStore(): Tables {
    Tables([], [1, 2], [Participant(1, 1, 7), Participant(2, 1, 7), Participant(3, 2, 7), Participant(4, 2, 8)],
           [], 1, 3, 5, 1, 0)
  }

  /** The participant rows of the counterexample store, one slice at a time. */
  lemma SelfChatRows(ps: seq<Participant>)
    requires ps == SelfChatStore().participants
    ensures Filter(ps, (p: Participant) => p.chatId == 1) == [ps[0], ps[1]]
    ensures Filter(ps, (p: Participant) => p.chatId == 2) == [ps[2], ps[3]]
    ensures Count(ps, (p: Participant) => p.chatId == 1 && (p.userId == 7 || p.userId == 8)) == 2
  {
    assert ps[1..][1..] == ps[2..];
    assert ps[2..][1..] == ps[3..];
    assert ps[3..][1..] == [];
  }

  /** As written, user 7 asking for their chat with user 8 is given their chat with themselves. */
  lemma SelfChatMatchesAsWritten()
    ensures ExistingChatAsWritten(SelfChatStore(), 7, 8) == Some(1)
  {
    var t := SelfChatStore();
    SelfChatRows(t.participants);
    var written := (c: int) =>
      Count(t.participants, (p: Participant) => p.chatId == c && (p.userId == 7 || p.userId == 8)) == 2;
    FindFirstAt(t.chats, written, 0);
  }

  lemma SelfChatMembers(ps: seq<Participant>)
    requires ps == SelfChatStore().participants
    ensures MemberIds(ps, 1) == [7, 7] && MemberIds(ps, 2) == [7, 8]
  {
    SelfChatRows(ps);
  }

  lemma PairMultisets()
    ensures multiset([7, 7]) != multiset{7, 8}
    ensures multiset([7, 8]) == multiset{7, 8}
  {
    assert multiset([7, 7])[8] == 0;
  }

  /** As intended, the same request finds their chat with user 8. */
  lemma SelfChatSkippedAsIntended()
    ensures ExistingChat(SelfChatStore(), 7, 8) == Some(2)
  {
    var t := SelfChatStore();
    SelfChatMembers(t.participants);
    PairMultisets();
    var r := ExistingChat(t, 7, 8);
    assert t.chats[1] == 2;
    assert r.Some? && r.value in [1, 2];
    assert r.value != 1;
  }

  /**
   * POST /chats by `caller` for the user named `otherName`: 404 when there
   * is no such user; the existing chat of the two, with nothing created;
   * otherwise exactly one new chat with two participant rows, the caller's
   * first, answered with the caller first and then the other user.
   */
  method CreateChat(db: Db, caller: User, otherName: string) returns (r: Response<Created>)
    requires Valid(db.State())
    modifies db
    ensures Valid(db.State())
    ensures UserByName(old(db.users), otherName).None? ==>
              r == Fail(HttpError(404, "User not found")) && db.State() == old(db.State())
    ensures UserByName(old(db.users), otherName).Some? ==>
              var other := UserByName(old(db.users), otherName).value;
              var existing := ExistingChat(old(db.State()), caller.id, other.id);
              && (existing.Some? ==> r == Ok(AlreadyExists(existing.value)) && db.State() == old(db.State()))
              && (existing.None? ==>
                    && db.State() == WithChat(old(db.State()), caller.id, other.id)
                    && r == Ok(NewChat(old(db.nextChatId), [UserSummary(caller.id, caller.username),
                                                            UserSummary(other.id, other.username)])))
  {
    var found := UserByName(db.users, otherName);
    if found.None? {
      return Fail(HttpError(NotFound, "User not found"));
    }
    var other := found.value;
    var before := db.State();
    var existing := ExistingChat(before, caller.id, other.id);
    if existing.Some? {
      return Ok(AlreadyExists(existing.value));
    }
    var after := WithChat(before, caller.id, other.id);
    CreateKeepsValid(before, caller.id, other.id);
    db.chats, db.participants := after.chats, after.participants;
    db.nextChatId, db.nextParticipantId := after.nextChatId, after.nextParticipantId;
    assert db.State() == after;
    r := Ok(NewChat(before.nextChatId, [UserSummary(caller.id, caller.username), UserSummary(other.id, other.username)]));
  }

  /** The store after a chat of `callerId` and `otherId` is created. */
  function WithChat(t: Tables, callerId: int, otherId: int): Tables {
    var c := t.nextChatId;
    var p := t.nextParticipantId;
    t.(chats := t.chats + [c],
       participants := t.participants + [Participant(p, c, callerId), Participant(p + 1, c, otherId)],
       nextChatId := c + 1, nextParticipantId := p + 2)
  }

  lemma CreateKeepsValid(t: Tables, callerId: int, otherId: int)
    requires Valid(t)
    ensures Valid(WithChat(t, callerId, otherId))
  {
    var t' := WithChat(t, callerId, otherId);
    forall i, j | 0 <= i < j < |t'.chats| ensures t'.chats[i] != t'.chats[j] {
      if j == |t.chats| {
        assert t'.chats[i] == t.chats[i] < t.nextChatId;
      }
    }
    forall i | 0 <= i < |t'.participants|
      ensures t'.participants[i].id < t'.nextParticipantId && t'.participants[i].chatId in t'.chats
    {
      if i < |t.participants| {
        assert t'.participants[i] == t.participants[i];
      } else {
        assert t'.chats[|t.chats|] == t.nextChatId;
      }
    }
  }

  /** Rows of another chat leave a chat's members as they were. */
  lemma MembersAfterAppend(ps: seq<Participant>, added: seq<Participant>, x: int)
    requires forall i :: 0 <= i < |added| ==> added[i].chatId != x
    ensures MemberIds(ps + added, x) == MemberIds(ps, x)
  {
    MemberIdsConcat(ps, added, x);
    FilterKeepsNone(added, (q: Participant) => q.chatId == x);
  }

  /** A chat id no row names gets exactly the members of the rows added for it. */
  lemma MembersOfNewChat(ps: seq<Participant>, c: int, p: int, callerId: int, otherId: int)
    requires forall i :: 0 <= i < |ps| ==> ps[i].chatId != c
    ensures MemberIds(ps + [Participant(p, c, callerId), Participant(p + 1, c, otherId)], c) == [callerId, otherId]
  {
    var added := [Participant(p, c, callerId), Participant(p + 1, c, otherId)];
    MemberIdsConcat(ps, added, c);
    var f := Filter(ps, (q: Participant) => q.chatId == c);
    FilterKeepsNone(ps, (q: Participant) => q.chatId == c);
    FilterKeepsAll(added, (q: Participant) => q.chatId == c);
  }

  /**
   * Asking again for the chat just created finds it: a second POST /chats
   * for the same two users creates nothing.
   */
  lemma CreatedChatIsFound(t: Tables, callerId: int, otherId: int)
    requires Valid(t)
    requires ExistingChat(t, callerId, otherId).None?
    ensures ExistingChat(WithChat(t, callerId, otherId), callerId, otherId) == Some(t.nextChatId)
  {
    var c := t.nextChatId;
    var t' := WithChat(t, callerId, otherId);
    var added := [Participant(t.nextParticipantId, c, callerId), Participant(t.nextParticipantId + 1, c, otherId)];
    assert t'.participants == t.participants + added;
    var intended := (x: int) => multiset(MemberIds(t'.participants, x)) == multiset{callerId, otherId};
    forall j | 0 <= j < |t.chats|
      ensures !intended(t'.chats[j])
    {
      assert t'.chats[j] == t.chats[j] < c;
      MembersAfterAppend(t.participants, added, t.chats[j]);
    }
    forall i | 0 <= i < |t.participants| ensures t.participants[i].chatId != c {
    }
    MembersOfNewChat(t.participants, c, t.nextParticipantId, callerId, otherId);
    assert t'.chats[|t.chats|] == c;
    FindFirstAt(t'.chats, intended, |t.chats|);
  }

  /** The chats the caller has a participant row in, each once. */
  function ChatIdsOf(ps: seq<Participant>, userId: int): (r: seq<int>)
    ensures forall i, j :: 0 <= i < j < |r| ==> r[i] != r[j]
    ensures forall c :: c in r <==> IsParticipantRows(ps, c, userId)
  {
    var rows := Filter(ps, (p: Participant) => p.userId == userId);
    var ids := seq(|rows|, i requires 0 <= i < |rows| => rows[i].chatId);
    forall c ensures c in ids <==> IsParticipantRows(ps, c, userId) {
      if c in ids {
        var m :| 0 <= m < |ids| && ids[m] == c;
        assert rows[m] in ps;
      }
      if IsParticipantRows(ps, c, userId) {
        var i :| 0 <= i < |ps| && ps[i].userId == userId && ps[i].chatId == c;
        assert ps[i] in rows;
        var k :| 0 <= k < |rows| && rows[k] == ps[i];
        assert ids[k] == c;
      }
    }
    Dedup(ids)
  }

  /** Some row of `ps` makes `userId` a participant of chat `chatId`. */
  predicate IsParticipantRows(ps: seq<Participant>, chatId: int, userId: int) {
    exists i :: 0 <= i < |ps| && ps[i].userId == userId && ps[i].chatId == chatId
  }

  /** Member `m` is the stored user with id `id`. */
  predicate IsMemberOf(m: Member, id: int, users: seq<User>) {
    var u := UserById(users, id);
    u.Some? && m == Member(u.value.id, u.value.username, u.value.displayName)
  }

  /** The members of a chat: the user of each id that is still a user (an inner join), in order. */
  function MembersOf(ids: seq<int>, users: seq<User>): (r: seq<Member>)
    ensures |r| <= |ids|
  {
    if ids == [] then []
    else
      var found := UserById(users, ids[0]);
      if found.None? then MembersOf(ids[1..], users)
      else [Member(found.value.id, found.value.username, found.value.displayName)] + MembersOf(ids[1..], users)
  }

  /** Every id that names a user contributes that user. */
  lemma {:induction false} MembersOfCovers(ids: seq<int>, users: seq<User>, i: int)
    requires 0 <= i < |ids| && UserById(users, ids[i]).Some?
    ensures exists k :: 0 <= k < |MembersOf(ids, users)| && IsMemberOf(MembersOf(ids, users)[k], ids[i], users)
  {
    var r := MembersOf(ids, users);
    if i == 0 {
      assert IsMemberOf(r[0], ids[0], users);
    } else {
      MembersOfCovers(ids[1..], users, i - 1);
      var rest := MembersOf(ids[1..], users);
      var k :| 0 <= k < |rest| && IsMemberOf(rest[k], ids[1..][i - 1], users);
      if UserById(users, ids[0]).None? {
        assert IsMemberOf(r[k], ids[i], users);
      } else {
        assert r[k + 1] == rest[k];
        assert IsMemberOf(r[k + 1], ids[i], users);
      }
    }
  }

  /** Every member listed is the user of one of the ids. */
  lemma {:induction false} MembersOfOnly(ids: seq<int>, users: seq<User>, k: int)
    requires 0 <= k < |MembersOf(ids, users)|
    ensures exists i :: 0 <= i < |ids| && IsMemberOf(MembersOf(ids, users)[k], ids[i], users)
  {
    var r := MembersOf(ids, users);
    var rest := MembersOf(ids[1..], users);
    if UserById(users, ids[0]).Some? && k == 0 {
      assert IsMemberOf(r[0], ids[0], users);
    } else {
      var j := if UserById(users, ids[0]).None? then k else k - 1;
      assert r[k] == rest[j];
      MembersOfOnly(ids[1..], users, j);
      var i :| 0 <= i < |ids[1..]| && IsMemberOf(rest[j], ids[1..][i], users);
      assert ids[1..][i] == ids[i + 1];
      assert IsMemberOf(r[k], ids[i + 1], users);
    }
  }

  /** One entry of GET /chats. */
  function EntryOf(t: Tables, chatId: int): ChatEntry {
    ChatEntry(chatId, MembersOf(Dedup(MemberIds(t.participants, chatId)), t.users))
  }

  /** What GET /chats answers the caller: one entry per chat they take part in, each chat once. */
  function ChatList(t: Tables, callerId: int): seq<ChatEntry> {
    var ids := ChatIdsOf(t.participants, callerId);
    seq(|ids|, i requires 0 <= i < |ids| => EntryOf(t, ids[i]))
  }

  /** Every chat the caller takes part in has an entry, and only those chats do, each once. */
  lemma ChatListIsCallersChats(t: Tables, callerId: int)
    ensures var r := ChatList(t, callerId);
      && (forall i :: 0 <= i < |t.participants| && t.participants[i].userId == callerId ==>
            exists k :: 0 <= k < |r| && r[k].chatId == t.participants[i].chatId)
      && (forall k :: 0 <= k < |r| ==> IsParticipant(t, r[k].chatId, callerId))
      && (forall j, k :: 0 <= j < k < |r| ==> r[j].chatId != r[k].chatId)
  {
    var ids := ChatIdsOf(t.participants, callerId);
    var r := ChatList(t, callerId);
    forall i | 0 <= i < |t.participants| && t.participants[i].userId == callerId
      ensures exists k :: 0 <= k < |r| && r[k].chatId == t.participants[i].chatId
    {
      assert IsParticipantRows(t.participants, t.participants[i].chatId, callerId);
      var k :| 0 <= k < |ids| && ids[k] == t.participants[i].chatId;
      assert r[k].chatId == ids[k];
    }
    forall k | 0 <= k < |r| ensures IsParticipant(t, r[k].chatId, callerId) {
      assert r[k].chatId == ids[k];
      assert ids[k] in ids;
      var i :| 0 <= i < |t.participants| && t.participants[i].userId == callerId &&
               t.participants[i].chatId == ids[k];
    }
    forall j, k | 0 <= j < k < |r| ensures r[j].chatId != r[k].chatId {
      assert r[j].chatId == ids[j] && r[k].chatId == ids[k];
    }
  }

  /** Each entry of GET /chats lists every user with a participant row in that chat. */
  lemma ChatListMembers(t: Tables, callerId: int, k: int, i: int)
    requires 0 <= k < |ChatList(t, callerId)|
    requires 0 <= i < |t.participants| && t.participants[i].chatId == ChatList(t, callerId)[k].chatId
    requires UserById(t.users, t.participants[i].userId).Some?
    ensures var u := UserById(t.users, t.participants[i].userId).value;
            Member(u.id, u.username, u.displayName) in ChatList(t, callerId)[k].participants
  {
    var c := ChatList(t, callerId)[k].chatId;
    var rows := Filter(t.participants, (p: Participant) => p.chatId == c);
    assert t.participants[i] in rows;
    var m :| 0 <= m < |rows| && rows[m] == t.participants[i];
    var ids := MemberIds(t.participants, c);
    assert ids[m] == t.participants[i].userId;
    var distinct := Dedup(ids);
    assert ids[m] in ids;
    var n :| 0 <= n < |distinct| && distinct[n] == ids[m];
    MembersOfCovers(distinct, t.users, n);
  }

  /** Each member an entry of GET /chats lists is a user with a participant row in that chat. */
  lemma ChatListOnlyMembers(t: Tables, callerId: int, k: int, j: int)
    requires 0 <= k < |ChatList(t, callerId)|
    requires 0 <= j < |ChatList(t, callerId)[k].participants|
    ensures var e := ChatList(t, callerId)[k];
            exists i :: 0 <= i < |t.participants| && t.participants[i].chatId == e.chatId &&
                        IsMemberOf(e.participants[j], t.participants[i].userId, t.users)
  {
    var e := ChatList(t, callerId)[k];
    var c := e.chatId;
    var rows := Filter(t.participants, (p: Participant) => p.chatId == c);
    var ids := MemberIds(t.participants, c);
    var distinct := Dedup(ids);
    MembersOfOnly(distinct, t.users, j);
    var n :| 0 <= n < |distinct| && IsMemberOf(e.participants[j], distinct[n], t.users);
    assert distinct[n] in distinct;
    var m :| 0 <= m < |ids| && ids[m] == distinct[n];
    assert rows[m] in t.participants;
    var i :| 0 <= i < |t.participants| && t.participants[i] == rows[m];
    assert t.participants[i].chatId == c && t.participants[i].userId == distinct[n];
  }

  /** GET /chats: the loop that builds one entry per chat of the caller. */
  method GetChats(db: Db, caller: User) returns (r: seq<ChatEntry>)
    ensures r == ChatList(db.State(), caller.id)
  {
    var t := db.State();
    var chats := ChatIdsOf(t.participants, caller.id);
    r := [];
    var i := 0;
    while i < |chats|
      invariant 0 <= i <= |chats| && |r| == i
      invariant forall k :: 0 <= k < i ==> r[k] == EntryOf(t, chats[k])
    {
      r := r + [EntryOf(t, chats[i])];
      i := i + 1;
    }
    assert r == ChatList(t, caller.id);
  }
}
