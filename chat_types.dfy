/** The records exchanged by the messaging layer: a direct message as the
    server stores and sends it, and the user summary shown in the chat
    sidebar. */
module ChatTypes {
  import opened Wrappers

  type UserId = string
  type MessageId = nat

  /** A direct message. `text` and `image` are both optional; `image` is
      the URL of the hosted copy of the attached picture. */
  datatype Message = Message(
    id: MessageId,
    senderId: UserId,
    receiverId: UserId,
    text: Option<string>,
    image: Option<string>,
    isRead: bool,
    createdAt: int)

  /** A user as the sidebar lists it (the stored record minus its
      password). */
  datatype ChatUser = ChatUser(id: UserId, fullName: string, email: string, profilePic: string)
}
