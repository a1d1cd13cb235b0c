/**
 * The server and the chat view agree. Each change a message handler makes
 * to the store, seen through the history listing of a chat, is the change
 * the chat view makes to that listing when the frame the handler broadcasts
 * arrives. This holds for every chat, not only the message's own: in any
 * other chat the change is invisible and the frame a no-op.
 */
module Agreement {
  import opened Base
  import opened Seqs
  import opened Wire
  import opened Database
  import opened Reconciler
  import opened Messages

  /** Listing entries and deleting by id commute. */
  lemma {:induction false} EntriesRemove(rows: seq<MessageRow>, users: seq<User>, id: int)
    requires Entries(rows, users).Some?
    ensures Entries(RemoveMessage(rows, id), users) == Some(DeleteById(Entries(rows, users).value, id))
  {
    if rows != [] {
      EntriesRemove(rows[1..], users, id);
      var e := Entries(rows, users).value;
      var rest := Entries(rows[1..], users).value;
      assert e == [e[0]] + rest;
      assert e[0].id == rows[0].id;
    }
  }

  /** Listing entries and setting a message's content commute. */
  lemma {:induction false} EntriesSetContent(rows: seq<MessageRow>, users: seq<User>, id: int, c: string)
    requires Entries(rows, users).Some?
    ensures Entries(SetContent(rows, id, c), users) == Some(EditById(Entries(rows, users).value, id, c))
  {
    if rows != [] {
      EntriesSetContent(rows[1..], users, id, c);
      var e := Entries(rows, users).value;
      assert e == [e[0]] + Entries(rows[1..], users).value;
      assert SetContent(rows, id, c) == [SetContent(rows, id, c)[0]] + SetContent(rows[1..], id, c);
    }
  }

  /** Setting a message's content does not move it to another chat. */
  lemma {:induction false} RowsOfSetContent(msgs: seq<MessageRow>, chatId: int, id: int, c: string)
    ensures RowsOf(SetContent(msgs, id, c), chatId) == SetContent(RowsOf(msgs, chatId), id, c)
  {
    if msgs != [] {
      RowsOfSetContent(msgs[1..], chatId, id, c);
      assert SetContent(msgs, id, c) == [SetContent(msgs, id, c)[0]] + SetContent(msgs[1..], id, c);
      assert SetContent(msgs, id, c)[1..] == SetContent(msgs[1..], id, c);
    }
  }

  /**
   * After DELETE /messages/{id}, every chat's listing is the listing before
   * with the broadcast `delete_message` frame applied.
   */
  lemma DeleteAgrees(t: Tables, callerId: int, chatId: int, id: int)
    requires Listing(t, callerId, chatId).Ok?
    ensures Listing(t.(messages := RemoveMessage(t.messages, id)), callerId, chatId) ==
            Ok(Apply(Listing(t, callerId, chatId).value, DeleteFrame(id)))
  {
    FilterCommute(t.messages, (m: MessageRow) => m.id != id, (m: MessageRow) => m.chatId == chatId);
    EntriesRemove(RowsOf(t.messages, chatId), t.users, id);
  }

  /**
   * After PATCH /messages/{id}, every chat's listing is the listing before
   * with the broadcast `edit_message` frame applied.
   */
  lemma EditAgrees(t: Tables, callerId: int, chatId: int, id: int, c: string)
    requires Listing(t, callerId, chatId).Ok?
    ensures Listing(t.(messages := SetContent(t.messages, id, c)), callerId, chatId) ==
            Ok(Apply(Listing(t, callerId, chatId).value, EditFrame(id, c)))
  {
    RowsOfSetContent(t.messages, chatId, id, c);
    EntriesSetContent(RowsOf(t.messages, chatId), t.users, id, c);
  }

  /** Listing a message appended to the rows appends its entry. */
  lemma {:induction false} EntriesAppend(rows: seq<MessageRow>, users: seq<User>, row: MessageRow, u: User)
    requires Entries(rows, users).Some?
    requires UserById(users, row.senderId) == Some(u)
    ensures Entries(rows + [row], users) == Some(Entries(rows, users).value + [Entry(row, u)])
  {
    var rr := rows + [row];
    if rows == [] {
      assert rr == [row];
      assert rr[1..] == [];
      assert Entries(rr[1..], users) == Some([]);
      assert Entries(rr, users) == Some([Entry(row, u)] + []);
      assert Entries(rows, users) == Some([]);
      assert [Entry(row, u)] + [] == [] + [Entry(row, u)];
    } else {
      assert rr[0] == rows[0];
      assert rr[1..] == rows[1..] + [row];
      EntriesAppend(rows[1..], users, row, u);
      var head := Entry(rows[0], UserById(users, rows[0].senderId).value);
      assert Entries(rows, users).value == [head] + Entries(rows[1..], users).value;
      var tail := Entries(rows[1..], users).value;
      assert Entries(rr[1..], users) == Some(tail + [Entry(row, u)]);
      assert Entries(rr, users) == Some([head] + (tail + [Entry(row, u)]));
      assert [head] + (tail + [Entry(row, u)]) == ([head] + tail) + [Entry(row, u)];
    }
  }

  /** Storing a message of chat `row.chatId` appends its entry to that chat's listing. */
  lemma ListingAfterSend(t: Tables, caller: User, row: MessageRow)
    requires Listing(t, caller.id, row.chatId).Ok?
    requires UserById(t.users, caller.id) == Some(caller) && row.senderId == caller.id
    ensures Listing(t.(messages := t.messages + [row]), caller.id, row.chatId) ==
            Ok(Listing(t, caller.id, row.chatId).value + [Entry(row, caller)])
  {
    var t' := t.(messages := t.messages + [row]);
    var keep := (m: MessageRow) => m.chatId == row.chatId;
    FilterConcat(t.messages, [row], keep);
    assert Filter([row], keep) == [row];
    var rows := RowsOf(t.messages, row.chatId);
    assert RowsOf(t'.messages, row.chatId) == rows + [row];
    EntriesAppend(rows, t.users, row, caller);
    assert AccessCheck(t', row.chatId, caller.id) == AccessCheck(t, row.chatId, caller.id);
  }

  /**
   * After POST /messages to `chatId`, that chat's listing is the listing
   * before with the broadcast message appended, except that the live copy
   * has no sender display name: the frame does not carry it.
   */
  lemma SendAgrees(t: Tables, caller: User, row: MessageRow)
    requires Listing(t, caller.id, row.chatId).Ok?
    requires UserById(t.users, caller.id) == Some(caller) && row.senderId == caller.id
    ensures var before := Listing(t, caller.id, row.chatId).value;
            var server := Listing(t.(messages := t.messages + [row]), caller.id, row.chatId);
            var client := Apply(before, PostedFrame(PostedOf(row, caller.username)));
            && server.Ok?
            && |client| == |server.value| == |before| + 1
            && client[..|before|] == server.value[..|before|] == before
            && client[|before|] == server.value[|before|].(sender := Sender(caller.id, caller.username, None))
  {
    ListingAfterSend(t, caller, row);
    var before := Listing(t, caller.id, row.chatId).value;
    var server := before + [Entry(row, caller)];
    assert server[..|before|] == before;
    assert FromFrame(PostedOf(row, caller.username)) ==
           Entry(row, caller).(sender := Sender(caller.id, caller.username, None));
  }

  /** A message sent to another chat leaves this chat's listing as it was. */
  lemma SendElsewhereInvisible(t: Tables, callerId: int, chatId: int, row: MessageRow)
    requires row.chatId != chatId
    ensures Listing(t.(messages := t.messages + [row]), callerId, chatId) == Listing(t, callerId, chatId)
  {
    FilterConcat(t.messages, [row], (m: MessageRow) => m.chatId == chatId);
    assert Filter([row], (m: MessageRow) => m.chatId == chatId) == [];
    assert RowsOf(t.messages + [row], chatId) == RowsOf(t.messages, chatId);
  }
}
