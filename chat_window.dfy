/**
 * The state of the chat view component: the message list it reconciles, the
 * history load guarded by the `isMounted` flag of each run of its effect, the
 * live socket of that run, the composer (text and file) and the edit mode.
 */
module ChatWindow {
  import opened Base
  import opened Wire
  import opened Reconciler

  type SocketId = int
  /** A file chosen in the file input; its bytes are not modelled. */
  type FileRef = string

  /** The multipart form the send posts to `/messages`. */
  datatype SendForm = SendForm(chatId: int, content: Option<string>, image: Option<FileRef>)

  /** The PATCH of `/messages/{id}` with body `{new_content}`. */
  datatype EditRequest = EditRequest(messageId: int, newContent: Option<string>)

  /** The history fetch issued by one run of the effect, for one chat. */
  datatype HistoryRequest = HistoryRequest(run: nat, chatId: int)

  /**
   * What a send posts, or None when it returns early: it needs a token and
   * must not be in edit mode; the text goes in only when non-empty and the
   * image only when a file is selected.
   */
  function SendDecision(token: Option<string>, editing: bool, chatId: int,
                        content: Option<string>, file: Option<FileRef>): (r: Option<SendForm>)
    ensures r.Some? <==> Truthy(token) && !editing
    ensures r.Some? ==> r.value.chatId == chatId && r.value.image == file
    ensures r.Some? ==> (r.value.content.Some? <==> Truthy(content))
    ensures r.Some? && r.value.content.Some? ==> r.value.content == content
  {
    if !Truthy(token) || editing then None
    else Some(SendForm(chatId, if Truthy(content) then content else None, file))
  }

  class ChatView {
    /** The other participant of the open chat (`chat.userId`). */
    const userId: int
    var chatId: int
    var messages: seq<Message>
    var loading: bool
    var messageContent: Option<string>
    var selectedFile: Option<FileRef>
    var isEditing: bool
    var editMessageId: Option<int>
    var oldMessageContent: Option<string>
    /** The number of the latest run of the history/socket effect. */
    var run: nat
    /** `isMounted` of the latest run: set when it fetches, cleared by its cleanup. */
    var mounted: bool
    /** The socket of the latest run, until its cleanup closes it. */
    var socket: Option<SocketId>

    constructor (userId: int, chatId: int)
      ensures this.userId == userId && this.chatId == chatId
      ensures messages == [] && !loading && messageContent.None? && selectedFile.None?
      ensures !isEditing && editMessageId.None? && oldMessageContent.None?
      ensures run == 0 && !mounted && socket.None?
    {
      this.userId := userId;
      this.chatId := chatId;
      messages := [];
      loading := false;
      messageContent := None;
      selectedFile := None;
      isEditing := false;
      editMessageId := None;
      oldMessageContent := None;
      run := 0;
      mounted := false;
      socket := None;
    }

    /**
     * A run of the effect for the current chat. Without a token it stops at
     * once; otherwise it shows the loader, issues the history fetch and opens
     * the socket `sock`. The message list itself is not touched.
     */
    method Open(token: Option<string>, sock: SocketId) returns (req: Option<HistoryRequest>)
      requires !mounted && socket.None?
      modifies this`run, this`mounted, this`loading, this`socket
      ensures run == old(run) + 1
      ensures req.Some? <==> Truthy(token)
      ensures Truthy(token) ==> mounted && loading && socket == Some(sock) &&
                                req.value == HistoryRequest(run, chatId)
      ensures !Truthy(token) ==> !mounted && socket.None? && loading == old(loading)
    {
      run := run + 1;
      if !Truthy(token) {
        req := None;
        return;
      }
      mounted := true;
      loading := true;
      socket := Some(sock);
      req := Some(HistoryRequest(run, chatId));
    }

    /** The cleanup of the latest run: `isMounted = false` and the socket is closed. */
    method Cleanup()
      modifies this`mounted, this`socket
      ensures !mounted && socket.None?
    {
      mounted := false;
      socket := None;
    }

    /**
     * The chat id changes while the component stays on screen: the previous
     * run is cleaned up and a new one starts. The list of the previous chat is
     * kept until the new history arrives.
     */
    method SwitchChat(newChatId: int, token: Option<string>, sock: SocketId)
      returns (req: Option<HistoryRequest>)
      modifies this`chatId, this`run, this`mounted, this`loading, this`socket
      ensures chatId == newChatId && run == old(run) + 1
      ensures messages == old(messages)
      ensures req.Some? <==> Truthy(token)
      ensures Truthy(token) ==> mounted && loading && socket == Some(sock) &&
                                req.value == HistoryRequest(run, newChatId)
      ensures !Truthy(token) ==> !mounted && socket.None? && loading == old(loading)
    {
      Cleanup();
      chatId := newChatId;
      req := Open(token, sock);
    }

    /**
     * The history fetch of run `r` settles, with the list or with a failure.
     * Only the live latest run may touch the state: the list is replaced
     * wholesale on success, and the loader is hidden either way.
     */
    method HistoryLoaded(r: nat, result: Option<seq<Message>>)
      modifies this`messages, this`loading
      ensures r == old(run) && old(mounted) ==>
                !loading && messages == (if result.Some? then result.value else old(messages))
      ensures !(r == old(run) && old(mounted)) ==>
                messages == old(messages) && loading == old(loading)
    {
      if r == run && mounted {
        if result.Some? {
          messages := result.value;
        }
        loading := false;
      }
    }

    /** A frame arrives on socket `sock`; a closed socket delivers nothing. */
    method FrameReceived(sock: SocketId, f: Frame)
      modifies this`messages
      ensures messages == if socket == Some(sock) then Apply(old(messages), f) else old(messages)
    {
      if socket == Some(sock) {
        messages := Apply(messages, f);
      }
    }

    method Type(text: string)
      modifies this`messageContent
      ensures messageContent == Some(text)
    {
      messageContent := Some(text);
    }

    method ChooseFile(file: Option<FileRef>)
      modifies this`selectedFile
      ensures selectedFile == file
    {
      selectedFile := file;
    }

    /**
     * Sending with the given text and file. Without a token or in edit mode
     * nothing happens; otherwise the form is posted and the composer is
     * cleared whether or not the post succeeds. The list is not touched: the
     * new message appears only when its frame arrives.
     */
    method SendWith(token: Option<string>, content: Option<string>, file: Option<FileRef>)
      returns (form: Option<SendForm>)
      modifies this`messageContent, this`selectedFile
      ensures form == SendDecision(token, isEditing, chatId, content, file)
      ensures form.Some? ==> messageContent == Some("") && selectedFile.None?
      ensures form.None? ==> messageContent == old(messageContent) && selectedFile == old(selectedFile)
    {
      form := SendDecision(token, isEditing, chatId, content, file);
      if form.Some? {
        messageContent := Some("");
        selectedFile := None;
      }
    }

    /** The Enter key in the composer: send what it holds. */
    method SendMessage(token: Option<string>) returns (form: Option<SendForm>)
      modifies this`messageContent, this`selectedFile
      ensures form == SendDecision(token, isEditing, chatId, old(messageContent), old(selectedFile))
      ensures form.Some? ==> messageContent == Some("") && selectedFile.None?
      ensures form.None? ==> messageContent == old(messageContent) && selectedFile == old(selectedFile)
    {
      form := SendWith(token, messageContent, selectedFile);
    }

    /** The delete button: a request for that id when a token is stored; no state changes. */
    method DeleteMessage(token: Option<string>, messageId: int) returns (req: Option<int>)
      ensures req.Some? <==> Truthy(token)
      ensures req.Some? ==> req.value == messageId
    {
      req := if Truthy(token) then Some(messageId) else None;
    }

    /** The edit and delete buttons are shown only on messages not sent by the other participant. */
    predicate ShowsControls(m: Message) {
      m.sender.id != userId
    }

    /** The edit button of `m`: enter edit mode for `m`, remembering its content. */
    method StartEdit(m: Message)
      requires ShowsControls(m)
      modifies this`isEditing, this`editMessageId, this`oldMessageContent
      ensures isEditing && editMessageId == Some(m.id) && oldMessageContent == m.content
    {
      isEditing := true;
      editMessageId := Some(m.id);
      oldMessageContent := m.content;
    }

    /** The cancel cross of the edit banner: leaves edit mode and nothing else. */
    method CancelEdit()
      modifies this`isEditing
      ensures !isEditing
    {
      isEditing := false;
    }

    /**
     * Editing message `id` (whose old content is `oldContent`) to `content`.
     * A no-op without a token, outside edit mode, or when the id or the old
     * content is null; `patchOk` is the outcome of the PATCH. Edit mode and the
     * edited id are cleared only when it succeeds.
     */
    method EditWith(token: Option<string>, id: Option<int>, oldContent: Option<string>,
                    content: Option<string>, patchOk: bool)
      returns (req: Option<EditRequest>)
      modifies this`isEditing, this`editMessageId, this`oldMessageContent
      ensures req.Some? <==> Truthy(token) && old(isEditing) && id.Some? && oldContent.Some?
      ensures req.Some? ==> req.value == EditRequest(id.value, content) &&
                            oldMessageContent == oldContent &&
                            (patchOk ==> !isEditing && editMessageId.None?) &&
                            (!patchOk ==> isEditing && editMessageId == old(editMessageId))
      ensures req.None? ==> isEditing == old(isEditing) && editMessageId == old(editMessageId) &&
                            oldMessageContent == old(oldMessageContent)
    {
      if !Truthy(token) || !isEditing || id.None? || oldContent.None? {
        req := None;
        return;
      }
      oldMessageContent := oldContent;
      req := Some(EditRequest(id.value, content));
      if patchOk {
        editMessageId := None;
        isEditing := false;
      }
    }

    /** The Enter key in edit mode. */
    method EditMessage(token: Option<string>, id: Option<int>, oldContent: Option<string>, patchOk: bool)
      returns (req: Option<EditRequest>)
      modifies this`isEditing, this`editMessageId, this`oldMessageContent
      ensures req.Some? <==> Truthy(token) && old(isEditing) && id.Some? && oldContent.Some?
      ensures req.Some? ==> req.value == EditRequest(id.value, messageContent) &&
                            oldMessageContent == oldContent &&
                            (patchOk ==> !isEditing && editMessageId.None?) &&
                            (!patchOk ==> isEditing && editMessageId == old(editMessageId))
      ensures req.None? ==> isEditing == old(isEditing) && editMessageId == old(editMessageId) &&
                            oldMessageContent == old(oldMessageContent)
    {
      req := EditWith(token, id, oldContent, messageContent, patchOk);
    }

    /**
     * The form's submit. The composer's text area is `required`, so the
     * browser refuses to submit while it is empty and nothing happens.
     * Otherwise the composer is cleared first, then the edit or the send runs
     * with the text and file the handler captured before clearing.
     */
    method Submit(token: Option<string>, patchOk: bool)
      returns (send: Option<SendForm>, edit: Option<EditRequest>)
      modifies this`messageContent, this`selectedFile, this`isEditing, this`editMessageId,
               this`oldMessageContent
      ensures !Truthy(old(messageContent)) ==>
                && send.None? && edit.None?
                && messageContent == old(messageContent) && selectedFile == old(selectedFile)
                && isEditing == old(isEditing) && editMessageId == old(editMessageId)
                && oldMessageContent == old(oldMessageContent)
      ensures Truthy(old(messageContent)) ==> messageContent == Some("") && selectedFile.None?
      ensures old(isEditing) ==> send.None?
      ensures old(isEditing) ==>
        (edit.Some? <==> Truthy(old(messageContent)) && Truthy(token) &&
                         old(editMessageId).Some? && old(oldMessageContent).Some?)
      ensures old(isEditing) && edit.Some? ==>
                edit.value == EditRequest(old(editMessageId).value, old(messageContent))
      ensures !old(isEditing) ==> edit.None?
      ensures !old(isEditing) ==>
        send == if Truthy(old(messageContent))
                then SendDecision(token, false, chatId, old(messageContent), old(selectedFile))
                else None
    {
      send, edit := None, None;
      if !Truthy(messageContent) {
        return;
      }
      var content, file := messageContent, selectedFile;
      messageContent := Some("");
      selectedFile := None;
      if isEditing {
        edit := EditWith(token, editMessageId, oldMessageContent, content, patchOk);
      } else {
        send := SendWith(token, content, file);
      }
    }
  }

  /**
   * A live message that arrives before the history of its chat is lost: the
   * history replaces the whole list.
   */
  method EarlyFrameIsOverwritten(userId: int, chatId: int, token: Option<string>, sock: SocketId,
                                 early: Posted, history: seq<Message>)
    returns (shown: seq<Message>)
    requires Truthy(token)
    ensures shown == history
  {
    var view := new ChatView(userId, chatId);
    var req := view.Open(token, sock);
    view.FrameReceived(sock, PostedFrame(early));
    assert view.messages == [FromFrame(early)];
    view.HistoryLoaded(req.value.run, Some(history));
    shown := view.messages;
  }

  /**
   * Switching from chat A to chat B while A's history is in flight: A's late
   * history and any late frame of A's socket are ignored, and B's history is
   * what the view shows.
   */
  method StaleHistoryIgnored(userId: int, chatA: int, chatB: int, token: Option<string>,
                             sockA: SocketId, sockB: SocketId, lateFrame: Frame,
                             historyA: seq<Message>, historyB: seq<Message>)
    returns (shown: seq<Message>, loading: bool)
    requires Truthy(token) && sockA != sockB
    ensures shown == historyB && !loading
  {
    var view := new ChatView(userId, chatA);
    var reqA := view.Open(token, sockA);
    var reqB := view.SwitchChat(chatB, token, sockB);
    view.HistoryLoaded(reqB.value.run, Some(historyB));
    view.HistoryLoaded(reqA.value.run, Some(historyA));
    view.FrameReceived(sockA, lateFrame);
    shown, loading := view.messages, view.loading;
  }

  /**
   * When the history of the newly opened chat fails, the view keeps showing
   * the list of the chat it showed before.
   */
  method FailedHistoryKeepsPreviousList(userId: int, chatA: int, chatB: int, token: Option<string>,
                                        sockA: SocketId, sockB: SocketId, historyA: seq<Message>)
    returns (shown: seq<Message>, shownChat: int)
    requires Truthy(token)
    ensures shown == historyA && shownChat == chatB
  {
    var view := new ChatView(userId, chatA);
    var reqA := view.Open(token, sockA);
    view.HistoryLoaded(reqA.value.run, Some(historyA));
    var reqB := view.SwitchChat(chatB, token, sockB);
    view.HistoryLoaded(reqB.value.run, None);
    shown, shownChat := view.messages, view.chatId;
  }
}
