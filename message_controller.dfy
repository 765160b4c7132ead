/** The server side of direct messaging: the message collection and the
    five request handlers that list partners, fetch a conversation (marking
    it read), send, count unread messages and mark a conversation read. */
module MessageController {
  import opened Wrappers
  import opened Seqs
  import opened ChatTypes

  /** A stored user account. */
  datatype UserRecord = UserRecord(id: UserId, fullName: string, email: string, password: string, profilePic: string)

  /** The user without the password field (`select("-password")`). */
  function Summary(u: UserRecord): ChatUser {
    ChatUser(u.id, u.fullName, u.email, u.profilePic)
  }

  /** Every user of the directory except the caller, without passwords, in
      directory order. */
  function UsersForSidebar(directory: seq<UserRecord>, me: UserId): (r: seq<ChatUser>)
    ensures |r| <= |directory|
    ensures forall i :: 0 <= i < |r| ==> r[i].id != me
    ensures forall i :: 0 <= i < |directory| && directory[i].id != me ==> Summary(directory[i]) in r
    ensures forall i :: 0 <= i < |r| ==> exists j :: 0 <= j < |directory| && r[i] == Summary(directory[j])
  {
    if directory == [] then []
    else
      var rest := UsersForSidebar(directory[1..], me);
      assert forall i :: 0 <= i < |rest| ==> exists j :: 0 <= j < |directory| && rest[i] == Summary(directory[j]) by {
        forall i | 0 <= i < |rest| ensures exists j :: 0 <= j < |directory| && rest[i] == Summary(directory[j]) {
          var j :| 0 <= j < |directory[1..]| && rest[i] == Summary(directory[1..][j]);
          assert rest[i] == Summary(directory[j + 1]);
        }
      }
      if directory[0].id != me then [Summary(directory[0])] + rest else rest
  }

  /** `m` belongs to the two-party conversation between `a` and `b`. */
  predicate InConversation(m: Message, a: UserId, b: UserId) {
    (m.senderId == a && m.receiverId == b) || (m.senderId == b && m.receiverId == a)
  }

  /** `m` was sent by `sender` to `reader` and has not been read. */
  predicate UnreadFrom(m: Message, reader: UserId, sender: UserId) {
    m.senderId == sender && m.receiverId == reader && !m.isRead
  }

  /** The messages between `me` and `other` in both directions, in store
      order (the `$or` query of `getMessages`). */
  function Conversation(ms: seq<Message>, me: UserId, other: UserId): (r: seq<Message>)
    ensures |r| <= |ms|
    ensures forall i :: 0 <= i < |r| ==> InConversation(r[i], me, other) && r[i] in ms
    ensures forall i :: 0 <= i < |ms| && InConversation(ms[i], me, other) ==> ms[i] in r
  {
    Filter(ms, (m: Message) => InConversation(m, me, other))
  }

  /** The number of messages from `other` to `me` still unread
      (`countDocuments` in `getUnreadMessages`). */
  function UnreadCount(ms: seq<Message>, me: UserId, other: UserId): (n: nat)
    ensures n <= |ms|
    ensures n == 0 <==> forall i :: 0 <= i < |ms| ==> !UnreadFrom(ms[i], me, other)
  {
    FilterAllOrNone(ms, (m: Message) => UnreadFrom(m, me, other));
    |Filter(ms, (m: Message) => UnreadFrom(m, me, other))|
  }

  /** `m` with the read flag set if it is unread and from `other` to `me`. */
  function MarkOne(m: Message, me: UserId, other: UserId): Message {
    if UnreadFrom(m, me, other) then m.(isRead := true) else m
  }

  /** The collection after `updateMany({senderId: other, receiverId: me,
      isRead: false}, {isRead: true})`. */
  function MarkedRead(ms: seq<Message>, me: UserId, other: UserId): (r: seq<Message>)
    ensures |r| == |ms|
    ensures forall i :: 0 <= i < |ms| ==> r[i] == MarkOne(ms[i], me, other)
  {
    if ms == [] then [] else [MarkOne(ms[0], me, other)] + MarkedRead(ms[1..], me, other)
  }

  // ---- properties of the queries ----

  /** The conversation is the same whichever party asks. */
  lemma ConversationSymmetric(ms: seq<Message>, a: UserId, b: UserId)
    ensures Conversation(ms, a, b) == Conversation(ms, b, a)
  {
    FilterExtensional(ms, (m: Message) => InConversation(m, a, b), (m: Message) => InConversation(m, b, a));
  }

  /** Marking read changes nothing but read flags, only turns flags on, and
      only on messages from `other` to `me`. */
  lemma MarkedReadFrame(ms: seq<Message>, me: UserId, other: UserId)
    ensures forall i :: 0 <= i < |ms| ==> MarkedRead(ms, me, other)[i] == ms[i].(isRead := MarkedRead(ms, me, other)[i].isRead)
    ensures forall i :: 0 <= i < |ms| && ms[i].isRead ==> MarkedRead(ms, me, other)[i].isRead
    ensures forall i :: 0 <= i < |ms| && !(ms[i].senderId == other && ms[i].receiverId == me) ==>
              MarkedRead(ms, me, other)[i] == ms[i]
    ensures forall i :: 0 <= i < |ms| && ms[i].senderId == other && ms[i].receiverId == me ==>
              MarkedRead(ms, me, other)[i].isRead
  {
  }

  /** Marking read keeps every message's id. */
  lemma MarkedReadKeepsIds(ms: seq<Message>, me: UserId, other: UserId)
    ensures forall i :: 0 <= i < |ms| ==> MarkedRead(ms, me, other)[i].id == ms[i].id
  {
  }

  /** After marking, nothing from `other` to `me` is unread. */
  lemma MarkedReadClearsUnread(ms: seq<Message>, me: UserId, other: UserId)
    ensures UnreadCount(MarkedRead(ms, me, other), me, other) == 0
  {
    MarkedReadFrame(ms, me, other);
  }

  /** Unread counts of every other ordered pair are untouched by marking. */
  lemma {:induction false} MarkedReadOtherPairs(ms: seq<Message>, me: UserId, other: UserId, x: UserId, y: UserId)
    requires (x, y) != (me, other)
    ensures UnreadCount(MarkedRead(ms, me, other), x, y) == UnreadCount(ms, x, y)
  {
    if ms != [] {
      MarkedReadOtherPairs(ms[1..], me, other, x, y);
      var p := (m: Message) => UnreadFrom(m, x, y);
      FilterAppend([MarkOne(ms[0], me, other)], MarkedRead(ms[1..], me, other), p);
      FilterAppend([ms[0]], ms[1..], p);
      assert ms == [ms[0]] + ms[1..];
    }
  }

  /** Marking read is idempotent. */
  lemma {:induction false} MarkedReadIdempotent(ms: seq<Message>, me: UserId, other: UserId)
    ensures MarkedRead(MarkedRead(ms, me, other), me, other) == MarkedRead(ms, me, other)
  {
    if ms != [] {
      MarkedReadIdempotent(ms[1..], me, other);
      assert MarkedRead(ms, me, other)[1..] == MarkedRead(ms[1..], me, other);
    }
  }

  /** A store with no message between the two users has nothing unread from
      `other`, and marking it read changes nothing: skipping `updateMany` on
      an empty conversation loses nothing. */
  lemma {:induction false} EmptyConversationNothingToMark(ms: seq<Message>, me: UserId, other: UserId)
    requires Conversation(ms, me, other) == []
    ensures UnreadCount(ms, me, other) == 0
    ensures MarkedRead(ms, me, other) == ms
  {
    FilterAllOrNone(ms, (m: Message) => InConversation(m, me, other));
    MarkedReadUnchangedWhenNoneUnread(ms, me, other);
  }

  lemma {:induction false} MarkedReadUnchangedWhenNoneUnread(ms: seq<Message>, me: UserId, other: UserId)
    requires forall i :: 0 <= i < |ms| ==> !UnreadFrom(ms[i], me, other)
    ensures MarkedRead(ms, me, other) == ms
  {
    if ms != [] {
      MarkedReadUnchangedWhenNoneUnread(ms[1..], me, other);
    }
  }

  /** Marking read commutes with taking the conversation: the conversation
      stored after `getMessages` is the response with its flags updated,
      so the response itself carries the flags from before the update. */
  lemma {:induction false} ConversationOfMarked(ms: seq<Message>, me: UserId, other: UserId)
    ensures Conversation(MarkedRead(ms, me, other), me, other) == MarkedRead(Conversation(ms, me, other), me, other)
  {
    if ms != [] {
      ConversationOfMarked(ms[1..], me, other);
      var p := (m: Message) => InConversation(m, me, other);
      FilterAppend([MarkOne(ms[0], me, other)], MarkedRead(ms[1..], me, other), p);
      FilterAppend([ms[0]], ms[1..], p);
      assert ms == [ms[0]] + ms[1..];
      MarkedReadAppend(Filter([ms[0]], p), Filter(ms[1..], p), me, other);
    }
  }

  lemma MarkedReadAppend(a: seq<Message>, b: seq<Message>, me: UserId, other: UserId)
    ensures MarkedRead(a + b, me, other) == MarkedRead(a, me, other) + MarkedRead(b, me, other)
  {
    var whole := MarkedRead(a + b, me, other);
    var parts := MarkedRead(a, me, other) + MarkedRead(b, me, other);
    forall i | 0 <= i < |whole| ensures whole[i] == parts[i] {
      if i < |a| {
        assert (a + b)[i] == a[i];
      } else {
        assert (a + b)[i] == b[i - |a|];
      }
    }
  }

  /** The message a send appends is the last of the conversation between
      its two parties, and counts once towards the receiver's unread count
      for the sender. */
  lemma SendExtendsConversation(ms: seq<Message>, m: Message)
    requires !m.isRead
    ensures Conversation(ms + [m], m.senderId, m.receiverId) == Conversation(ms, m.senderId, m.receiverId) + [m]
    ensures UnreadCount(ms + [m], m.receiverId, m.senderId) == UnreadCount(ms, m.receiverId, m.senderId) + 1
  {
    FilterAppend(ms, [m], (x: Message) => InConversation(x, m.senderId, m.receiverId));
    FilterAppend(ms, [m], (x: Message) => UnreadFrom(x, m.receiverId, m.senderId));
  }

  // ---- the stateful collection and the handlers ----

  /** A `newMessage` push addressed to one live connection. */
  datatype Notification = Notification(socketId: string, event: string, payload: Message)

  class MessageStore {
    /** The message collection, in insertion order. */
    var messages: seq<Message>
    /** The id the next stored message receives. */
    var nextId: MessageId

    /** Ids are unique and below `nextId`. */
    ghost predicate Valid()
      reads this
    {
      && (forall i :: 0 <= i < |messages| ==> messages[i].id < nextId)
      && (forall i, j :: 0 <= i < j < |messages| ==> messages[i].id != messages[j].id)
    }

    constructor ()
      ensures Valid() && messages == [] && nextId == 0
    {
      messages := [];
      nextId := 0;
    }

    /** `getMessages`: answer with the conversation as found, then mark what
        the partner sent to the caller as read when the conversation is not
        empty. */
    method GetMessages(me: UserId, userToChatId: UserId) returns (response: seq<Message>)
      requires Valid()
      modifies this
      ensures Valid() && nextId == old(nextId)
      ensures response == Conversation(old(messages), me, userToChatId)
      ensures messages == MarkedRead(old(messages), me, userToChatId)
      ensures UnreadCount(messages, me, userToChatId) == 0
      ensures Conversation(messages, me, userToChatId) == MarkedRead(response, me, userToChatId)
    {
      var found := messages;
      response := Conversation(found, me, userToChatId);
      MarkedReadClearsUnread(found, me, userToChatId);
      ConversationOfMarked(found, me, userToChatId);
      if |response| > 0 {
        MarkedReadKeepsIds(found, me, userToChatId);
        messages := MarkedRead(found, me, userToChatId);
      } else {
        EmptyConversationNothingToMark(found, me, userToChatId);
      }
    }

    /** `sendMessage`: store one new unread message from the caller to
        `receiverId`, then push it to the receiver's connection if one is
        registered (`presence` maps user ids to socket ids; an empty socket
        id counts as none). `hostedImageUrl` is what the image host returns
        for the uploaded picture; it is used only when an image is sent. */
    method SendMessage(me: UserId, receiverId: UserId, text: Option<string>, image: Option<string>,
                       hostedImageUrl: string, now: int, presence: map<UserId, string>)
      returns (message: Message, notification: Option<Notification>)
      requires Valid()
      modifies this
      ensures Valid()
      ensures messages == old(messages) + [message]
      ensures message.id == old(nextId) && nextId == old(nextId) + 1
      ensures forall i :: 0 <= i < |old(messages)| ==> old(messages)[i].id != message.id
      ensures message.senderId == me && message.receiverId == receiverId && message.text == text
      ensures message.image == (if image.Some? && image.value != "" then Some(hostedImageUrl) else None)
      ensures !message.isRead && message.createdAt == now
      ensures notification.Some? <==> receiverId in presence && presence[receiverId] != ""
      ensures notification.Some? ==>
                notification.value == Notification(presence[receiverId], "newMessage", message)
    {
      var imageUrl: Option<string> := None;
      if image.Some? && image.value != "" {
        imageUrl := Some(hostedImageUrl);
      }
      message := Message(nextId, me, receiverId, text, imageUrl, false, now);
      messages := messages + [message];
      nextId := nextId + 1;
      notification := None;
      if receiverId in presence && presence[receiverId] != "" {
        notification := Some(Notification(presence[receiverId], "newMessage", message));
      }
    }

    /** `getUnreadMessages`: the number of unread messages from `otherUserId`
        to the caller; reads only. */
    method GetUnreadMessages(me: UserId, otherUserId: UserId) returns (count: nat)
      ensures count == UnreadCount(messages, me, otherUserId)
    {
      count := UnreadCount(messages, me, otherUserId);
    }

    /** `markMessagesAsRead`: mark every unread message from `otherUserId` to
        the caller as read. */
    method MarkMessagesAsRead(me: UserId, otherUserId: UserId)
      requires Valid()
      modifies this
      ensures Valid() && nextId == old(nextId)
      ensures messages == MarkedRead(old(messages), me, otherUserId)
      ensures UnreadCount(messages, me, otherUserId) == 0
    {
      MarkedReadFrame(messages, me, otherUserId);
      MarkedReadClearsUnread(messages, me, otherUserId);
      messages := MarkedRead(messages, me, otherUserId);
    }
  }

  /** A message sent to a receiver with no live connection is stored
      anyway; when the receiver then opens the (previously empty)
      conversation, the response holds exactly that message, still flagged
      unread, and afterwards nothing from the sender is unread. */
  method SendOfflineThenFetch(store: MessageStore, sender: UserId, receiver: UserId, text: string, now: int)
    returns (sent: Message, fetched: seq<Message>)
    requires store.Valid() && Conversation(store.messages, sender, receiver) == []
    modifies store
    ensures fetched == [sent] && !fetched[0].isRead && fetched[0].text == Some(text)
    ensures UnreadCount(store.messages, receiver, sender) == 0
  {
    var notification;
    sent, notification := store.SendMessage(sender, receiver, Some(text), None, "", now, map[]);
    SendExtendsConversation(old(store.messages), sent);
    ConversationSymmetric(store.messages, sender, receiver);
    fetched := store.GetMessages(receiver, sender);
  }
}
