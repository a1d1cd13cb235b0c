/**
 * The message handlers of the server: send, list, delete and edit. Each
 * checks the request against the store, changes the store, and asks for a
 * broadcast of one frame to the sockets of the message's chat.
 */
module Messages {
  import opened Base
  import opened Seqs
  import opened Wire
  import opened Database

  /** A broadcast a handler requests: `frame` to every socket of chat `chatId`. */
  datatype Emission = Emission(chatId: int, frame: Frame)

  datatype Deleted = Deleted(messageId: int, content: Option<string>)
  datatype Edited = Edited(messageId: int, content: Option<string>)

  /** The 404 then 403 checks of send and listing: the chat exists, the caller takes part in it. */
  function AccessCheck(t: Tables, chatId: int, userId: int): Option<Failure> {
    if chatId !in t.chats then Some(HttpError(NotFound, "Chat not found"))
    else if !IsParticipant(t, chatId, userId) then
      Some(HttpError(Forbidden, "User not a participant of the chat"))
    else None
  }

  /**
   * The checks of a send, in order: 404 for an unknown chat, then 403 for a
   * caller outside it, then 400 when there is neither text nor image; every
   * other request is accepted, an image alone included.
   */
  function SendCheck(t: Tables, callerId: int, chatId: int, content: Option<string>,
                     image: Option<string>): (r: Option<Failure>)
    ensures chatId !in t.chats ==> r == Some(HttpError(404, "Chat not found"))
    ensures chatId in t.chats && !IsParticipant(t, chatId, callerId) ==>
              r == Some(HttpError(403, "User not a participant of the chat"))
    ensures chatId in t.chats && IsParticipant(t, chatId, callerId) ==>
              (r.None? <==> Truthy(content) || image.Some?)
    ensures r.Some? ==> r.value.HttpError? && r.value.status in {400, 403, 404}
  {
    var access := AccessCheck(t, chatId, callerId);
    if access.Some? then access
    else if !Truthy(content) && image.None? then Some(HttpError(BadRequest, "Message cannot be empty"))
    else None
  }

  /**
   * The checks of a send as written: the upload of an image calls `shutil`,
   * which the module never imports, so every send with an image fails with a
   * NameError before the emptiness check.
   */
  function SendCheckAsWritten(t: Tables, callerId: int, chatId: int, content: Option<string>,
                              image: Option<string>): Option<Failure>
  {
    var access := AccessCheck(t, chatId, callerId);
    if access.Some? then access
    else if image.Some? then Some(Internal)
    else if !Truthy(content) then Some(HttpError(BadRequest, "Message cannot be empty"))
    else None
  }

  /** As written, no message with an image can be sent, even with text. */
  lemma ImageSendFailsAsWritten(t: Tables, callerId: int, chatId: int, content: Option<string>,
                                file: string)
    requires AccessCheck(t, chatId, callerId).None?
    ensures SendCheckAsWritten(t, callerId, chatId, content, Some(file)) == Some(Internal)
    ensures SendCheck(t, callerId, chatId, content, Some(file)).None?
  {
  }

  function ImageUrl(image: Option<string>): Option<string> {
    if image.Some? then Some("/uploads/" + image.value) else None
  }

  /** The `message_data` of a stored row: its columns and the sender's username. */
  function PostedOf(row: MessageRow, senderUsername: string): (p: Posted)
    ensures p.id == row.id && p.chatId == row.chatId && p.senderId == row.senderId
    ensures p.content == row.content && p.replyContent == row.replyContent
    ensures p.imageUrl == row.imageUrl && p.sentTime == row.sentTime && p.senderUsername == senderUsername
  {
    Posted(row.id, row.chatId, row.senderId, row.content, row.replyContent, row.imageUrl,
           row.sentTime, senderUsername)
  }

  /**
   * POST /messages by `caller`. `now` is the server clock, which does not go
   * back. On success exactly one row is stored, sent by the caller, and its
   * `message_data` is broadcast to the chat.
   */
  method SendMessage(db: Db, caller: User, chatId: int, content: Option<string>,
                     replyContent: Option<string>, image: Option<string>, now: int)
    returns (r: Response<Posted>, emitted: Option<Emission>)
    requires Valid(db.State()) && now >= db.lastSent
    modifies db
    ensures Valid(db.State())
    ensures SendCheck(old(db.State()), caller.id, chatId, content, image).Some? ==>
              r == Fail(SendCheck(old(db.State()), caller.id, chatId, content, image).value) &&
              emitted.None? && db.State() == old(db.State())
    ensures SendCheck(old(db.State()), caller.id, chatId, content, image).None? ==>
              var row := MessageRow(old(db.nextMessageId), chatId, caller.id, content, replyContent,
                                    ImageUrl(image), now);
              && db.State() == old(db.State()).(messages := old(db.messages) + [row],
                                                nextMessageId := old(db.nextMessageId) + 1,
                                                lastSent := now)
              && r == Ok(PostedOf(row, caller.username))
              && emitted == Some(Emission(chatId, PostedFrame(PostedOf(row, caller.username))))
  {
    var failure := SendCheck(db.State(), caller.id, chatId, content, image);
    if failure.Some? {
      return Fail(failure.value), None;
    }
    var row := MessageRow(db.nextMessageId, chatId, caller.id, content, replyContent,
                          ImageUrl(image), now);
    db.messages := db.messages + [row];
    db.nextMessageId := db.nextMessageId + 1;
    db.lastSent := now;
    var data := PostedOf(row, caller.username);
    r := Ok(data);
    emitted := Some(Emission(chatId, PostedFrame(data)));
  }

  /** One listing entry: the row's columns and its sender's id, username and display name. */
  function Entry(row: MessageRow, sender: User): Message {
    Message(row.id, row.chatId, row.content, row.replyContent, row.imageUrl, row.sentTime,
            Sender(sender.id, sender.username, sender.displayName))
  }

  /**
   * The entries of `rows`, one per row in the same order, or None when the
   * sender of some row is not a user any more (the handler then crashes).
   */
  function Entries(rows: seq<MessageRow>, users: seq<User>): (r: Option<seq<Message>>)
    ensures r.Some? <==> forall i :: 0 <= i < |rows| ==> UserById(users, rows[i].senderId).Some?
    ensures r.Some? ==> |r.value| == |rows|
    ensures r.Some? ==> forall i :: 0 <= i < |rows| ==>
              r.value[i] == Entry(rows[i], UserById(users, rows[i].senderId).value)
  {
    if rows == [] then Some([])
    else
      var sender := UserById(users, rows[0].senderId);
      var rest := Entries(rows[1..], users);
      if sender.None? || rest.None? then None
      else Some([Entry(rows[0], sender.value)] + rest.value)
  }

  /** What GET /messages answers to `callerId` for chat `chatId`. */
  function Listing(t: Tables, callerId: int, chatId: int): Response<seq<Message>> {
    var access := AccessCheck(t, chatId, callerId);
    if access.Some? then Fail(access.value)
    else
      var entries := Entries(RowsOf(t.messages, chatId), t.users);
      if entries.None? then Fail(Internal) else Ok(entries.value)
  }

  /** GET /messages: the loop that builds the listing entry by entry. */
  method GetMessagesInChat(db: Db, caller: User, chatId: int) returns (r: Response<seq<Message>>)
    ensures r == Listing(db.State(), caller.id, chatId)
  {
    var access := AccessCheck(db.State(), chatId, caller.id);
    if access.Some? {
      return Fail(access.value);
    }
    var rows := RowsOf(db.messages, chatId);
    var result: seq<Message> := [];
    var i := 0;
    while i < |rows|
      invariant 0 <= i <= |rows| && |result| == i
      invariant forall k :: 0 <= k < i ==>
                  UserById(db.users, rows[k].senderId).Some? &&
                  result[k] == Entry(rows[k], UserById(db.users, rows[k].senderId).value)
    {
      var sender := UserById(db.users, rows[i].senderId);
      if sender.None? {
        return Fail(Internal);
      }
      result := result + [Entry(rows[i], sender.value)];
      i := i + 1;
    }
    assert Entries(rows, db.users).value == result;
    r := Ok(result);
  }

  /** A listing is the chat's messages only, ascending by sent time. */
  lemma ListingInTimeOrder(t: Tables, callerId: int, chatId: int)
    requires InTimeOrder(t.messages)
    requires Listing(t, callerId, chatId).Ok?
    ensures var es := Listing(t, callerId, chatId).value;
      && (forall i :: 0 <= i < |es| ==> es[i].chatId == chatId)
      && (forall i, j :: 0 <= i < j < |es| ==> es[i].sentTime <= es[j].sentTime)
  {
    var rows := RowsOf(t.messages, chatId);
    FilterPairwise(t.messages, (m: MessageRow) => m.chatId == chatId,
                   (a: MessageRow, b: MessageRow) => a.sentTime <= b.sentTime);
    forall i | 0 <= i < |rows| ensures rows[i].chatId == chatId {
      assert rows[i] in rows;
    }
  }

  /** A listing leaves no message of the chat out. */
  lemma ListingCoversChat(t: Tables, callerId: int, chatId: int, i: int)
    requires Listing(t, callerId, chatId).Ok?
    requires 0 <= i < |t.messages| && t.messages[i].chatId == chatId
    ensures exists k :: 0 <= k < |Listing(t, callerId, chatId).value| &&
                        Listing(t, callerId, chatId).value[k].id == t.messages[i].id
  {
    var rows := RowsOf(t.messages, chatId);
    var es := Entries(rows, t.users).value;
    assert t.messages[i] in rows;
    var k :| 0 <= k < |rows| && rows[k] == t.messages[i];
    assert es[k].id == rows[k].id;
  }

  /** Each entry of a listing is a stored message of the chat, with the sender it was stored with. */
  lemma ListingEntryIsStored(t: Tables, callerId: int, chatId: int, k: int)
    requires Listing(t, callerId, chatId).Ok?
    requires 0 <= k < |Listing(t, callerId, chatId).value|
    ensures var e := Listing(t, callerId, chatId).value[k];
      exists i :: 0 <= i < |t.messages| && t.messages[i].id == e.id &&
                  t.messages[i].chatId == chatId && t.messages[i].senderId == e.sender.id &&
                  t.messages[i].content == e.content && t.messages[i].sentTime == e.sentTime
  {
    var rows := RowsOf(t.messages, chatId);
    assert rows[k] in t.messages;
    var u := UserById(t.users, rows[k].senderId).value;
    assert u.id == rows[k].senderId;
  }

  /** The store after a delete: the row with that key is gone. */
  function RemoveMessage(rows: seq<MessageRow>, id: int): seq<MessageRow> {
    Filter(rows, (m: MessageRow) => m.id != id)
  }

  /** The store after an edit: the row with that key has the new content. */
  function SetContent(rows: seq<MessageRow>, id: int, newContent: string): (r: seq<MessageRow>)
    ensures |r| == |rows|
    ensures forall i :: 0 <= i < |rows| ==>
              r[i] == if rows[i].id == id then rows[i].(content := Some(newContent)) else rows[i]
  {
    if rows == [] then []
    else [if rows[0].id == id then rows[0].(content := Some(newContent)) else rows[0]] +
         SetContent(rows[1..], id, newContent)
  }

  /**
   * DELETE /messages/{id}. An unknown id has no 404 branch: the lookup yields
   * None and reading its sender crashes. Only the sender may delete; the row
   * is removed and a `delete_message` frame goes to its chat.
   */
  method DeleteMessage(db: Db, caller: User, messageId: int)
    returns (r: Response<Deleted>, emitted: Option<Emission>)
    requires Valid(db.State())
    modifies db
    ensures Valid(db.State())
    ensures var found := MessageById(old(db.messages), messageId);
      && (found.None? ==> r == Fail(Internal) && emitted.None? && db.State() == old(db.State()))
      && (found.Some? && found.value.senderId != caller.id ==>
            r == Fail(HttpError(Forbidden, "You can't delete this message")) && emitted.None? &&
            db.State() == old(db.State()))
      && (found.Some? && found.value.senderId == caller.id ==>
            db.State() == old(db.State()).(messages := RemoveMessage(old(db.messages), messageId)) &&
            r == Ok(Deleted(messageId, found.value.content)) &&
            emitted == Some(Emission(found.value.chatId, DeleteFrame(messageId))))
  {
    var found := MessageById(db.messages, messageId);
    if found.None? {
      return Fail(Internal), None;
    }
    var message := found.value;
    if message.senderId != caller.id {
      return Fail(HttpError(Forbidden, "You can't delete this message")), None;
    }
    var before := db.messages;
    db.messages := RemoveMessage(db.messages, messageId);
    RemoveKeepsValid(db.State(), before, messageId);
    r := Ok(Deleted(messageId, message.content));
    emitted := Some(Emission(message.chatId, DeleteFrame(messageId)));
  }

  lemma RemoveKeepsValid(t: Tables, before: seq<MessageRow>, id: int)
    requires Valid(t.(messages := before))
    requires t.messages == RemoveMessage(before, id)
    ensures Valid(t)
  {
    var keep := (m: MessageRow) => m.id != id;
    FilterPairwise(before, keep, (a: MessageRow, b: MessageRow) => a.id != b.id);
    FilterPairwise(before, keep, (a: MessageRow, b: MessageRow) => a.sentTime <= b.sentTime);
    forall i | 0 <= i < |t.messages|
      ensures t.messages[i].id < t.nextMessageId && t.messages[i].sentTime <= t.lastSent
    {
      assert t.messages[i] in before;
    }
  }

  /**
   * PATCH /messages/{id}. Same lookup and sender check as the delete (with
   * the delete's 403 text); only `content` changes, and an `edit_message`
   * frame with the stored content goes to the message's chat.
   */
  method EditMessage(db: Db, caller: User, messageId: int, newContent: string)
    returns (r: Response<Edited>, emitted: Option<Emission>)
    requires Valid(db.State())
    modifies db
    ensures Valid(db.State())
    ensures var found := MessageById(old(db.messages), messageId);
      && (found.None? ==> r == Fail(Internal) && emitted.None? && db.State() == old(db.State()))
      && (found.Some? && found.value.senderId != caller.id ==>
            r == Fail(HttpError(Forbidden, "You can't delete this message")) && emitted.None? &&
            db.State() == old(db.State()))
      && (found.Some? && found.value.senderId == caller.id ==>
            db.State() == old(db.State()).(messages := SetContent(old(db.messages), messageId, newContent)) &&
            r == Ok(Edited(messageId, Some(newContent))) &&
            emitted == Some(Emission(found.value.chatId, EditFrame(messageId, newContent))))
  {
    var found := MessageById(db.messages, messageId);
    if found.None? {
      return Fail(Internal), None;
    }
    var message := found.value;
    if message.senderId != caller.id {
      return Fail(HttpError(Forbidden, "You can't delete this message")), None;
    }
    SetContentKeepsValid(db.State(), messageId, newContent);
    db.messages := SetContent(db.messages, messageId, newContent);
    r := Ok(Edited(messageId, Some(newContent)));
    emitted := Some(Emission(message.chatId, EditFrame(messageId, newContent)));
  }

  /** An edit changes no key and no time, so the store stays valid. */
  lemma SetContentKeepsValid(t: Tables, id: int, c: string)
    requires Valid(t)
    ensures Valid(t.(messages := SetContent(t.messages, id, c)))
  {
    var r := SetContent(t.messages, id, c);
    assert forall i :: 0 <= i < |r| ==> r[i].id == t.messages[i].id && r[i].sentTime == t.messages[i].sentTime;
  }
}
