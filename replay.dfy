/**
 * What a run of live frames leaves in the chat view's list when it starts
 * empty, stated message by message without reference to the list: a message
 * is shown exactly when it was posted and not deleted afterwards, and it
 * shows the content of the last edit that followed its post. `Fate` follows
 * one message id through the frames on its own; `ShownIsFate` proves that
 * the list reconciler agrees with it for every id.
 */
module Replay {
  import opened Base
  import opened Seqs
  import opened Wire
  import opened Reconciler

  /** The message with id `k` in the list (the first one), if any. */
  function Shown(msgs: seq<Message>, k: int): (r: Option<Message>)
    ensures r.None? <==> !HasId(msgs, k)
    ensures r.Some? ==> exists j :: 0 <= j < |msgs| && msgs[j] == r.value && r.value.id == k &&
                                    forall i :: 0 <= i < j ==> msgs[i].id != k
  {
    FindFirst(msgs, (m: Message) => m.id == k)
  }

  lemma ShownAt(msgs: seq<Message>, k: int, j: int)
    requires 0 <= j < |msgs| && msgs[j].id == k
    requires forall i :: 0 <= i < j ==> msgs[i].id != k
    ensures Shown(msgs, k) == Some(msgs[j])
  {
    FindFirstAt(msgs, (m: Message) => m.id == k, j);
  }

  /** Frame `p` posts the message with id `k`. */
  predicate PostedAt(fs: seq<Frame>, p: int, k: int) {
    0 <= p < |fs| && fs[p].PostedFrame? && fs[p].data.id == k
  }

  /** No two new-message frames carry the same id: the server never reuses a message id. */
  predicate FreshPosts(fs: seq<Frame>) {
    forall p, q :: 0 <= q < p < |fs| && fs[p].PostedFrame? && fs[q].PostedFrame? ==>
                   fs[p].data.id != fs[q].data.id
  }

  /** Some frame after frame `p` deletes message `k`. */
  predicate DeletedAfter(fs: seq<Frame>, p: int, k: int) {
    exists q :: 0 <= q < |fs| && p < q && fs[q] == DeleteFrame(k)
  }

  /** Message `k` was posted and not deleted afterwards. */
  predicate Alive(fs: seq<Frame>, k: int) {
    exists p :: 0 <= p < |fs| && PostedAt(fs, p, k) && !DeletedAfter(fs, p, k)
  }

  /** The content left by the edits of message `k` among `fs`: the last edit's, or `init` when there is none. */
  function EditedContent(fs: seq<Frame>, k: int, init: Option<string>): Option<string>
    decreases |fs|
  {
    if fs == [] then init
    else
      var f := fs[|fs| - 1];
      if f.EditFrame? && f.messageId == k then Some(f.newContent)
      else EditedContent(fs[..|fs| - 1], k, init)
  }

  /** What one frame does to message `k`, given what was shown of it. */
  function Step(o: Option<Message>, f: Frame, k: int): Option<Message> {
    match f
    case PostedFrame(d) => if d.id == k then Some(FromFrame(d)) else o
    case DeleteFrame(id) => if id == k then None else o
    case EditFrame(id, c) => if id == k && o.Some? then Some(o.value.(content := Some(c))) else o
  }

  /** Message `k` after the frames, followed on its own from "not shown". */
  function Fate(fs: seq<Frame>, k: int): Option<Message>
    decreases |fs|
  {
    if fs == [] then None else Step(Fate(fs[..|fs| - 1], k), fs[|fs| - 1], k)
  }

  lemma {:induction false} ShownDelete(msgs: seq<Message>, id: int, k: int)
    requires id != k
    ensures Shown(DeleteById(msgs, id), k) == Shown(msgs, k)
  {
    if msgs != [] {
      ShownDelete(msgs[1..], id, k);
      var rest := DeleteById(msgs[1..], id);
      if msgs[0].id != id {
        var r := [msgs[0]] + rest;
        assert DeleteById(msgs, id) == r;
        assert r[0] == msgs[0] && r[1..] == rest;
      } else {
        assert DeleteById(msgs, id) == rest;
      }
    }
  }

  lemma {:induction false} EditByIdAt(msgs: seq<Message>, id: int, c: string, i: int)
    requires 0 <= i < |msgs|
    ensures EditById(msgs, id, c)[i] == EditOne(msgs[i], id, c)
  {
    if i > 0 {
      EditByIdAt(msgs[1..], id, c, i - 1);
    }
  }

  lemma EditByIdKeepsIds(msgs: seq<Message>, id: int, c: string)
    ensures forall i :: 0 <= i < |msgs| ==> EditById(msgs, id, c)[i].id == msgs[i].id
  {
    forall i | 0 <= i < |msgs| ensures EditById(msgs, id, c)[i].id == msgs[i].id {
      EditByIdAt(msgs, id, c, i);
    }
  }

  lemma ShownEditAt(msgs: seq<Message>, id: int, c: string, k: int, j: int)
    requires 0 <= j < |msgs| && msgs[j].id == k
    requires forall i :: 0 <= i < j ==> msgs[i].id != k
    ensures Shown(EditById(msgs, id, c), k) == Some(EditOne(msgs[j], id, c))
  {
    EditByIdKeepsIds(msgs, id, c);
    EditByIdAt(msgs, id, c, j);
    ShownAt(EditById(msgs, id, c), k, j);
  }

  lemma ShownEdit(msgs: seq<Message>, id: int, c: string, k: int)
    ensures Shown(EditById(msgs, id, c), k) == Step(Shown(msgs, k), EditFrame(id, c), k)
  {
    var o := Shown(msgs, k);
    if o.None? {
      EditByIdKeepsIds(msgs, id, c);
      assert !HasId(EditById(msgs, id, c), k);
    } else {
      var j :| 0 <= j < |msgs| && msgs[j] == o.value && o.value.id == k &&
               forall i :: 0 <= i < j ==> msgs[i].id != k;
      ShownEditAt(msgs, id, c, k, j);
    }
  }

  lemma ShownAppend(msgs: seq<Message>, d: Posted, k: int)
    requires !HasId(msgs, d.id)
    ensures Shown(Append(msgs, d), k) == Step(Shown(msgs, k), PostedFrame(d), k)
  {
    var r := Append(msgs, d);
    var o := Shown(msgs, k);
    if d.id == k {
      ShownAt(r, k, |msgs|);
    } else if o.None? {
      assert !HasId(r, k);
    } else {
      var j :| 0 <= j < |msgs| && msgs[j] == o.value && o.value.id == k &&
               forall i :: 0 <= i < j ==> msgs[i].id != k;
      ShownAt(r, k, j);
    }
  }

  /** One frame changes the list's message `k` exactly as `Step` says. */
  lemma ShownStep(msgs: seq<Message>, f: Frame, k: int)
    requires f.PostedFrame? ==> !HasId(msgs, f.data.id)
    ensures Shown(Apply(msgs, f), k) == Step(Shown(msgs, k), f, k)
  {
    match f
    case DeleteFrame(id) =>
      if id != k {
        ShownDelete(msgs, id, k);
      }
    case EditFrame(id, c) =>
      ShownEdit(msgs, id, c, k);
    case PostedFrame(d) =>
      ShownAppend(msgs, d, k);
  }

  lemma FreshPostsPrefix(fs: seq<Frame>)
    requires fs != [] && FreshPosts(fs)
    ensures FreshPosts(fs[..|fs| - 1])
  {
  }

  /**
   * The reconciled list, started empty, shows for every id exactly the
   * message that id's own fate gives, and its ids stay unique.
   */
  lemma {:induction false} ShownIsFate(fs: seq<Frame>)
    requires FreshPosts(fs)
    ensures UniqueIds(ApplyAll([], fs))
    ensures forall k :: Shown(ApplyAll([], fs), k) == Fate(fs, k)
    decreases |fs|
  {
    if fs != [] {
      var n := |fs|;
      var front, f := fs[..n - 1], fs[n - 1];
      FreshPostsPrefix(fs);
      ShownIsFate(front);
      var r := ApplyAll([], front);
      assert fs == front + [f];
      ApplyAllConcat([], front, [f]);
      assert ApplyAll(r, [f]) == Apply(r, f) by {
        assert [f][1..] == [];
      }
      if f.PostedFrame? {
        assert !Alive(front, f.data.id) by {
          forall p | 0 <= p < |front| ensures !PostedAt(front, p, f.data.id) {
            assert front[p] == fs[p];
          }
        }
        FateSomeAlive(front, f.data.id);
      }
      ApplyKeepsUniqueIds(r, f);
      forall k ensures Shown(Apply(r, f), k) == Fate(fs, k) {
        ShownStep(r, f, k);
      }
    }
  }

  /** A shown message was posted and not deleted afterwards. */
  lemma {:induction false} FateSomeAlive(fs: seq<Frame>, k: int)
    ensures Fate(fs, k).Some? ==> Alive(fs, k)
    decreases |fs|
  {
    if fs == [] || Fate(fs, k).None? {
      return;
    }
    var n := |fs|;
    var front, f := fs[..n - 1], fs[n - 1];
    if f.PostedFrame? && f.data.id == k {
      assert PostedAt(fs, n - 1, k) && !DeletedAfter(fs, n - 1, k);
    } else {
      assert Fate(front, k).Some? && f != DeleteFrame(k);
      FateSomeAlive(front, k);
      var p :| 0 <= p < |front| && PostedAt(front, p, k) && !DeletedAfter(front, p, k);
      assert fs[p] == front[p];
      forall q | p < q < n ensures fs[q] != DeleteFrame(k) {
        if q < n - 1 {
          assert fs[q] == front[q];
        }
      }
      assert PostedAt(fs, p, k) && !DeletedAfter(fs, p, k);
    }
  }

  /**
   * A message posted at frame `p` and not deleted afterwards shows the
   * post's id, time and sender, and the content of the last edit after it.
   */
  lemma {:induction false} FateOfLive(fs: seq<Frame>, k: int, p: int)
    requires FreshPosts(fs) && PostedAt(fs, p, k) && !DeletedAfter(fs, p, k)
    ensures Fate(fs, k) ==
            Some(FromFrame(fs[p].data).(content := EditedContent(fs[p + 1..], k, fs[p].data.content)))
    decreases |fs|
  {
    var n := |fs|;
    var front, f := fs[..n - 1], fs[n - 1];
    var d := fs[p].data;
    if p == n - 1 {
      assert fs[p + 1..] == [];
    } else {
      FreshPostsPrefix(fs);
      assert PostedAt(front, p, k);
      assert !DeletedAfter(front, p, k) by {
        forall q | p < q < n - 1 ensures front[q] != DeleteFrame(k) {
          assert front[q] == fs[q];
        }
      }
      FateOfLive(front, k, p);
      var tail := fs[p + 1..];
      assert tail[..|tail| - 1] == front[p + 1..];
      assert tail[|tail| - 1] == f;
      assert f != DeleteFrame(k);
      if f.PostedFrame? {
        assert f.data.id != d.id;
      }
    }
  }

  /**
   * Frames applied to an empty list, as the chat view's list starts: exactly
   * the messages that were posted and not deleted afterwards are shown, each
   * once, with the id, time and sender of its post and the content of the
   * last edit that followed it.
   */
  lemma ReplayFromEmpty(fs: seq<Frame>, k: int)
    requires FreshPosts(fs)
    ensures UniqueIds(ApplyAll([], fs))
    ensures HasId(ApplyAll([], fs), k) <==> Alive(fs, k)
    ensures forall p :: PostedAt(fs, p, k) && !DeletedAfter(fs, p, k) ==>
              Shown(ApplyAll([], fs), k) ==
                Some(FromFrame(fs[p].data).(content := EditedContent(fs[p + 1..], k, fs[p].data.content)))
  {
    ShownIsFate(fs);
    FateSomeAlive(fs, k);
    forall p | PostedAt(fs, p, k) && !DeletedAfter(fs, p, k)
      ensures Shown(ApplyAll([], fs), k) ==
                Some(FromFrame(fs[p].data).(content := EditedContent(fs[p + 1..], k, fs[p].data.content)))
    {
      FateOfLive(fs, k, p);
    }
  }
}
