/**
 * The message-list reconciler of the chat view: how the ordered list of
 * messages of the open chat changes when the history arrives and when a live
 * frame arrives. Every update is a pure function of the latest list, as the
 * functional `setMessages(prev => ...)` updates of the component are.
 */
module Reconciler {
  import opened Base
  import opened Seqs
  import opened Wire

  /**
   * The message built from a new-message frame: the frame's own keys, and a
   * sender made of `sender_id`, `sender_username` and `sender_displayName`.
   * The server never sends `sender_displayName`, so the display name is absent.
   */
  function FromFrame(d: Posted): (m: Message)
    ensures m.id == d.id && m.chatId == d.chatId && m.sentTime == d.sentTime
    ensures m.content == d.content && m.imageUrl == d.imageUrl && m.replyContent == d.replyContent
    ensures m.sender == Sender(d.senderId, d.senderUsername, None)
  {
    Message(d.id, d.chatId, d.content, d.replyContent, d.imageUrl, d.sentTime,
            Sender(d.senderId, d.senderUsername, None))
  }

  /** A `delete_message` frame: keep every message whose id differs. */
  function DeleteById(msgs: seq<Message>, id: int): (r: seq<Message>)
    ensures forall m :: m in r <==> m in msgs && m.id != id
  {
    Filter(msgs, (m: Message) => m.id != id)
  }

  /** The message `m` with its content replaced when its id is `id`. */
  function EditOne(m: Message, id: int, newContent: string): Message {
    if m.id == id then m.(content := Some(newContent)) else m
  }

  /** An `edit_message` frame: replace the content of every message with that id, in place. */
  function EditById(msgs: seq<Message>, id: int, newContent: string): (r: seq<Message>)
    ensures |r| == |msgs|
    ensures forall i :: 0 <= i < |r| ==> r[i].(content := msgs[i].content) == msgs[i]
    ensures forall i :: 0 <= i < |r| ==>
              r[i].content == (if msgs[i].id == id then Some(newContent) else msgs[i].content)
  {
    if msgs == [] then []
    else [EditOne(msgs[0], id, newContent)] + EditById(msgs[1..], id, newContent)
  }

  /** A frame without a recognised `action`: append one message at the end. */
  function Append(msgs: seq<Message>, d: Posted): (r: seq<Message>)
    ensures |r| == |msgs| + 1 && r[..|msgs|] == msgs && r[|msgs|] == FromFrame(d)
  {
    msgs + [FromFrame(d)]
  }

  /** The update one live frame makes to the latest list. */
  function Apply(msgs: seq<Message>, f: Frame): seq<Message> {
    match f
    case DeleteFrame(id) => DeleteById(msgs, id)
    case EditFrame(id, c) => EditById(msgs, id, c)
    case PostedFrame(d) => Append(msgs, d)
  }

  /** Frames applied one after another, in the order they arrived. */
  function ApplyAll(msgs: seq<Message>, frames: seq<Frame>): seq<Message>
    decreases |frames|
  {
    if frames == [] then msgs else ApplyAll(Apply(msgs, frames[0]), frames[1..])
  }

  predicate HasId(msgs: seq<Message>, id: int) {
    exists i :: 0 <= i < |msgs| && msgs[i].id == id
  }

  predicate UniqueIds(msgs: seq<Message>) {
    forall i, j :: 0 <= i < j < |msgs| ==> msgs[i].id != msgs[j].id
  }

  /** Deleting an id that is not in the list leaves the list unchanged. */
  lemma DeleteUnknownIsNoOp(msgs: seq<Message>, id: int)
    requires !HasId(msgs, id)
    ensures DeleteById(msgs, id) == msgs
  {
    FilterKeepsAll(msgs, (m: Message) => m.id != id);
  }

  /**
   * Deletion keeps the survivors in their original order: it works piecewise
   * on any split of the list, and removes exactly the messages with that id.
   */
  lemma DeleteKeepsOrder(a: seq<Message>, b: seq<Message>, id: int)
    ensures DeleteById(a + b, id) == DeleteById(a, id) + DeleteById(b, id)
    ensures |DeleteById(a + b, id)| == |a + b| - Count(a + b, (m: Message) => m.id == id)
    ensures !HasId(DeleteById(a + b, id), id)
  {
    var keep := (m: Message) => m.id != id;
    FilterConcat(a, b, keep);
    FilterLength(a + b, keep);
    CountComplement(a + b, id);
  }

  lemma {:induction false} CountComplement(s: seq<Message>, id: int)
    ensures Count(s, (m: Message) => m.id != id) == |s| - Count(s, (m: Message) => m.id == id)
  {
    if s != [] {
      CountComplement(s[1..], id);
    }
  }

  /** A delete frame applied twice removes nothing more. */
  lemma DeleteIdempotent(msgs: seq<Message>, id: int)
    ensures DeleteById(DeleteById(msgs, id), id) == DeleteById(msgs, id)
  {
    FilterIdempotent(msgs, (m: Message) => m.id != id);
  }

  /** Editing an id that is not in the list leaves the list unchanged. */
  lemma EditUnknownIsNoOp(msgs: seq<Message>, id: int, newContent: string)
    requires !HasId(msgs, id)
    ensures EditById(msgs, id, newContent) == msgs
  {
    var r := EditById(msgs, id, newContent);
    forall i | 0 <= i < |msgs| ensures r[i] == msgs[i] {
      assert msgs[i].id != id;
    }
  }

  /** Edits keep every id, so the set of messages present and their order never change. */
  lemma EditKeepsIds(msgs: seq<Message>, id: int, newContent: string, k: int)
    ensures HasId(EditById(msgs, id, newContent), k) <==> HasId(msgs, k)
    ensures UniqueIds(msgs) ==> UniqueIds(EditById(msgs, id, newContent))
  {
    var r := EditById(msgs, id, newContent);
    assert forall i :: 0 <= i < |r| ==> r[i].id == msgs[i].id by {
      forall i | 0 <= i < |r| ensures r[i].id == msgs[i].id {
        assert r[i].(content := msgs[i].content) == msgs[i];
      }
    }
  }

  /** A later edit of the same message wins: the content shown is the latest one. */
  lemma {:induction false} LatestEditWins(msgs: seq<Message>, id: int, c1: string, c2: string)
    ensures EditById(EditById(msgs, id, c1), id, c2) == EditById(msgs, id, c2)
  {
    if msgs != [] {
      LatestEditWins(msgs[1..], id, c1, c2);
    }
  }

  /** Delete and edit frames commute: their relative arrival order does not matter. */
  lemma {:induction false} DeleteEditCommute(msgs: seq<Message>, d: int, e: int, c: string)
    ensures DeleteById(EditById(msgs, e, c), d) == EditById(DeleteById(msgs, d), e, c)
  {
    if msgs != [] {
      DeleteEditCommute(msgs[1..], d, e, c);
      var keep := (m: Message) => m.id != d;
      var head := EditOne(msgs[0], e, c);
      assert EditById(msgs, e, c) == [head] + EditById(msgs[1..], e, c);
      assert DeleteById(msgs, d) ==
        (if msgs[0].id != d then [msgs[0]] else []) + DeleteById(msgs[1..], d) by {
        FilterConcat([msgs[0]], msgs[1..], keep);
        assert [msgs[0]] + msgs[1..] == msgs;
      }
      FilterConcat([head], EditById(msgs[1..], e, c), keep);
      EditConcat(if msgs[0].id != d then [msgs[0]] else [], DeleteById(msgs[1..], d), e, c);
    }
  }

  lemma {:induction false} EditConcat(a: seq<Message>, b: seq<Message>, id: int, c: string)
    ensures EditById(a + b, id, c) == EditById(a, id, c) + EditById(b, id, c)
  {
    if a == [] {
      assert a + b == b;
    } else {
      assert (a + b)[1..] == a[1..] + b;
      EditConcat(a[1..], b, id, c);
    }
  }

  /** Frames compose in arrival order: a batch then another is the two batches in one. */
  lemma {:induction false} ApplyAllConcat(msgs: seq<Message>, f1: seq<Frame>, f2: seq<Frame>)
    ensures ApplyAll(msgs, f1 + f2) == ApplyAll(ApplyAll(msgs, f1), f2)
    decreases |f1|
  {
    if f1 == [] {
      assert f1 + f2 == f2;
    } else {
      assert (f1 + f2)[0] == f1[0];
      assert (f1 + f2)[1..] == f1[1..] + f2;
      ApplyAllConcat(Apply(msgs, f1[0]), f1[1..], f2);
    }
  }

  /**
   * Ids stay unique under every frame, as long as a new-message frame carries
   * an id that is not yet in the list.
   */
  lemma ApplyKeepsUniqueIds(msgs: seq<Message>, f: Frame)
    requires UniqueIds(msgs)
    requires f.PostedFrame? ==> !HasId(msgs, f.data.id)
    ensures UniqueIds(Apply(msgs, f))
  {
    match f
    case DeleteFrame(id) =>
      FilterPairwise(msgs, (m: Message) => m.id != id, (a: Message, b: Message) => a.id != b.id);
    case EditFrame(id, c) =>
      EditKeepsIds(msgs, id, c, id);
    case PostedFrame(d) =>
      var r := Append(msgs, d);
      forall i, j | 0 <= i < j < |r| ensures r[i].id != r[j].id {
        if j == |msgs| {
          assert r[i] == msgs[i];
        } else {
          assert r[i] == msgs[i] && r[j] == msgs[j];
        }
      }
  }
}
