/** The parts of the chat platform's records that the core reads. Fetching,
    sending and every other platform call stay outside the model. */
module Platform {
  import opened Wrappers

  /** A file attached to a message; `contentType` is the MIME type, if the
      platform reported one. */
  datatype Attachment = Attachment(filename: string, url: string, contentType: Option<string>)

  /** A rich embed; only the URL of its image is read. */
  datatype Embed = Embed(imageUrl: Option<string>)

  /** A chat message: its text, files, embeds, where it was posted, who
      wrote it, whom it mentions, whether it replies to another message, and
      the link to it. */
  datatype Message = Message(
    content: string,
    attachments: seq<Attachment>,
    embeds: seq<Embed>,
    channelId: int,
    authorId: int,
    mentionIds: seq<int>,
    hasReference: bool,
    jumpUrl: string)

  /** A forum thread: whether its parent channel is a forum, the parent's id
      and the ids of the tags applied to the thread. */
  datatype Thread = Thread(parentIsForum: bool, parentId: int, appliedTagIds: seq<int>)
}
