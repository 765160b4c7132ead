/** The application-level `newMessage` listener: it reads the chat store's
    current state and either shows the message or counts it as unread. */
module App {
  import opened Wrappers
  import opened ChatTypes
  import opened ChatStore

  /** `handleNewMessage`: a message from the currently selected partner is
      appended to the open conversation; any other message (including every
      message while nobody is selected) bumps its sender's unread count.
      Exactly one of the two happens, and the selection never changes. */
  method HandleNewMessage(store: Store, newMessage: Message)
    modifies store
    ensures store.selectedUser == old(store.selectedUser) && store.users == old(store.users)
    ensures store.isUsersLoading == old(store.isUsersLoading)
    ensures store.isMessagesLoading == old(store.isMessagesLoading)
    ensures old(store.selectedUser).Some? && old(store.selectedUser).value.id == newMessage.senderId ==>
              store.messages == old(store.messages) + [newMessage]
              && store.unreadMessages == old(store.unreadMessages)
    ensures !(old(store.selectedUser).Some? && old(store.selectedUser).value.id == newMessage.senderId) ==>
              store.messages == old(store.messages)
              && store.unreadMessages == Bumped(old(store.unreadMessages), newMessage.senderId)
  {
    var selectedUser := store.selectedUser;
    if selectedUser.Some? && selectedUser.value.id == newMessage.senderId {
      store.messages := store.messages + [newMessage];
    } else {
      store.unreadMessages := Bumped(store.unreadMessages, newMessage.senderId);
    }
  }

  /** Opening partner P's conversation and then receiving a message from P:
      the open list is P's history followed by that message, and P has no
      cached unread count. */
  method SelectThenReceive(store: Store, partner: ChatUser, history: seq<Message>, newMessage: Message)
    requires newMessage.senderId == partner.id
    modifies store
    ensures store.selectedUser == Some(partner)
    ensures store.messages == history + [newMessage]
    ensures CountOf(store.unreadMessages, partner.id) == 0
  {
    store.SetSelectedUser(Some(partner), Some(history));
    HandleNewMessage(store, newMessage);
  }

  /** A message from Q while P (not Q) is open: the open list is untouched
      and Q's cached count goes up by exactly one. */
  method ReceiveFromOther(store: Store, newMessage: Message)
    requires store.selectedUser.Some? && store.selectedUser.value.id != newMessage.senderId
    modifies store
    ensures store.messages == old(store.messages)
    ensures CountOf(store.unreadMessages, newMessage.senderId) == CountOf(old(store.unreadMessages), newMessage.senderId) + 1
  {
    HandleNewMessage(store, newMessage);
  }
}
