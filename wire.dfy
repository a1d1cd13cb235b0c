/**
 * The JSON shapes that cross between server and client: a message as the
 * history listing returns it and the chat view holds it, and the frames the
 * server pushes to every socket of a chat, as a tagged value.
 */
module Wire {
  import opened Base

  datatype Sender = Sender(id: int, username: string, displayName: Option<string>)

  /** A message with its nested sender. */
  datatype Message = Message(
    id: int,
    chatId: int,
    content: Option<string>,
    replyContent: Option<string>,
    imageUrl: Option<string>,
    sentTime: int,
    sender: Sender)

  /** The body of a new-message frame: every key the server puts in `message_data`. */
  datatype Posted = Posted(
    id: int,
    chatId: int,
    senderId: int,
    content: Option<string>,
    replyContent: Option<string>,
    imageUrl: Option<string>,
    sentTime: int,
    senderUsername: string)

  /**
   * A frame on the live channel. The two edit/delete shapes carry an `action`
   * key ("delete_message", "edit_message"); a new message carries none.
   */
  datatype Frame =
    | DeleteFrame(messageId: int)
    | EditFrame(messageId: int, newContent: string)
    | PostedFrame(data: Posted)
}
