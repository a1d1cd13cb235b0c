/**
 * The server's store: the users, chats, chat participants and messages
 * tables, held by one session object that the request handlers update.
 * Rows are kept in insertion order, which is the order the queries see.
 */
module Database {
  import opened Base
  import opened Seqs

  datatype User = User(id: int, username: string, displayName: Option<string>,
                       email: string, passwordHash: string)

  /** One row of `chat_participants`: user `userId` takes part in chat `chatId`. */
  datatype Participant = Participant(id: int, chatId: int, userId: int)

  datatype MessageRow = MessageRow(
    id: int,
    chatId: int,
    senderId: int,
    content: Option<string>,
    replyContent: Option<string>,
    imageUrl: Option<string>,
    sentTime: int)

  /**
   * A snapshot of the store: the four tables, the next value of each
   * autoincrement key, and the time of the latest stored message.
   */
  datatype Tables = Tables(
    users: seq<User>,
    chats: seq<int>,
    participants: seq<Participant>,
    messages: seq<MessageRow>,
    nextUserId: int,
    nextChatId: int,
    nextParticipantId: int,
    nextMessageId: int,
    lastSent: int)

  /** The table constraints: keys and unique columns, fresh key counters, messages in time order. */
  predicate Valid(t: Tables) {
    && (forall i, j :: 0 <= i < j < |t.users| ==>
          t.users[i].id != t.users[j].id && t.users[i].username != t.users[j].username &&
          t.users[i].email != t.users[j].email)
    && (forall i :: 0 <= i < |t.users| ==> t.users[i].id < t.nextUserId)
    && (forall i, j :: 0 <= i < j < |t.chats| ==> t.chats[i] != t.chats[j])
    && (forall i :: 0 <= i < |t.chats| ==> t.chats[i] < t.nextChatId)
    && (forall i :: 0 <= i < |t.participants| ==>
          t.participants[i].id < t.nextParticipantId && t.participants[i].chatId in t.chats)
    && UniqueMessageIds(t.messages)
    && (forall i :: 0 <= i < |t.messages| ==> t.messages[i].id < t.nextMessageId)
    && InTimeOrder(t.messages)
    && (forall i :: 0 <= i < |t.messages| ==> t.messages[i].sentTime <= t.lastSent)
  }

  predicate UniqueMessageIds(rows: seq<MessageRow>) {
    forall i, j :: 0 <= i < j < |rows| ==> rows[i].id != rows[j].id
  }

  /** Ascending by `sent_time`. */
  predicate InTimeOrder(rows: seq<MessageRow>) {
    forall i, j :: 0 <= i < j < |rows| ==> rows[i].sentTime <= rows[j].sentTime
  }

  function UserById(users: seq<User>, id: int): Option<User> {
    FindFirst(users, (u: User) => u.id == id)
  }

  function UserByName(users: seq<User>, name: string): Option<User> {
    FindFirst(users, (u: User) => u.username == name)
  }

  function MessageById(rows: seq<MessageRow>, id: int): Option<MessageRow> {
    FindFirst(rows, (m: MessageRow) => m.id == id)
  }

  /** Whether `userId` has a participant row in chat `chatId`. */
  predicate IsParticipant(t: Tables, chatId: int, userId: int) {
    exists i :: 0 <= i < |t.participants| && t.participants[i].chatId == chatId &&
                t.participants[i].userId == userId
  }

  /** The messages of one chat, in store order. */
  function RowsOf(rows: seq<MessageRow>, chatId: int): seq<MessageRow> {
    Filter(rows, (m: MessageRow) => m.chatId == chatId)
  }

  /** The store session. Handlers change its tables in place. */
  class Db {
    var users: seq<User>
    var chats: seq<int>
    var participants: seq<Participant>
    var messages: seq<MessageRow>
    var nextUserId: int
    var nextChatId: int
    var nextParticipantId: int
    var nextMessageId: int
    var lastSent: int

    function State(): Tables
      reads this
    {
      Tables(users, chats, participants, messages,
             nextUserId, nextChatId, nextParticipantId, nextMessageId, lastSent)
    }

    constructor (start: int)
      ensures State() == Tables([], [], [], [], 1, 1, 1, 1, start)
      ensures Valid(State())
    {
      users, chats, participants, messages := [], [], [], [];
      nextUserId, nextChatId, nextParticipantId, nextMessageId := 1, 1, 1, 1;
      lastSent := start;
    }
  }
}
