/** The client's chat state: the open conversation's messages, the user
    list, the selected partner and a cache of unread counts per partner,
    with the store's actions as transitions. Each asynchronous action is
    modelled as completed: its server reply is a parameter (`None` when the
    request failed). */
module ChatStore {
  import opened Wrappers
  import opened ChatTypes

  /** The cached unread count for `id`; an absent key reads as 0
      (`unreadMessages[id] || 0`). */
  function CountOf(unread: map<UserId, int>, id: UserId): int {
    if id in unread then unread[id] else 0
  }

  /** `unread` with the count for `sender` bumped by one and every other key
      left alone. */
  function Bumped(unread: map<UserId, int>, sender: UserId): (r: map<UserId, int>)
    ensures r.Keys == unread.Keys + {sender}
    ensures CountOf(r, sender) == CountOf(unread, sender) + 1
    ensures forall k :: k in unread && k != sender ==> r[k] == unread[k]
  {
    unread[sender := CountOf(unread, sender) + 1]
  }

  /** The ids of the listed users. */
  function Ids(users: seq<ChatUser>): set<UserId> {
    set i | 0 <= i < |users| :: users[i].id
  }

  /** The unread map `getUsers` builds: a key for each listed user whose
      reply count is positive, holding that count. */
  function PositiveCounts(users: seq<ChatUser>, replies: UserId -> Option<int>): (r: map<UserId, int>)
    ensures r.Keys <= Ids(users)
    ensures forall k :: k in r ==> r[k] > 0 && replies(k) == Some(r[k])
    ensures forall i :: 0 <= i < |users| && replies(users[i].id).Some? && replies(users[i].id).value > 0 ==>
              users[i].id in r && r[users[i].id] == replies(users[i].id).value
  {
    map id | id in Ids(users) && replies(id).Some? && replies(id).value > 0 :: replies(id).value
  }

  lemma PositiveCountsStep(users: seq<ChatUser>, u: ChatUser, replies: UserId -> Option<int>)
    requires replies(u.id).Some?
    ensures PositiveCounts(users + [u], replies) ==
              if replies(u.id).value > 0 then PositiveCounts(users, replies)[u.id := replies(u.id).value]
              else PositiveCounts(users, replies)
  {
    var ids := Ids(users);
    var ids' := Ids(users + [u]);
    assert ids' == ids + {u.id} by {
      forall id | id in ids' ensures id in ids + {u.id} {
        var i :| 0 <= i < |users + [u]| && (users + [u])[i].id == id;
        if i < |users| { assert users[i].id == id; }
      }
      forall id | id in ids ensures id in ids' {
        var i :| 0 <= i < |users| && users[i].id == id;
        assert (users + [u])[i].id == id;
      }
      assert (users + [u])[|users|].id == u.id;
    }
    var lhs := PositiveCounts(users + [u], replies);
    var rhs := if replies(u.id).value > 0 then PositiveCounts(users, replies)[u.id := replies(u.id).value]
               else PositiveCounts(users, replies);
    var before := PositiveCounts(users, replies);
    forall k ensures k in lhs <==> k in rhs {
      assert k in lhs <==> k in ids' && replies(k).Some? && replies(k).value > 0;
      assert k in before <==> k in ids && replies(k).Some? && replies(k).value > 0;
    }
    assert lhs.Keys == rhs.Keys;
    assert forall k :: k in lhs ==> lhs[k] == rhs[k];
  }

  /** The `for` loop of `getUsers`: ask for each user's unread count in
      list order and keep the positive ones. One failed request abandons
      the whole action (`None`). */
  method CollectUnreadCounts(users: seq<ChatUser>, replies: UserId -> Option<int>)
    returns (counts: Option<map<UserId, int>>)
    ensures counts.None? <==> exists i :: 0 <= i < |users| && replies(users[i].id).None?
    ensures counts.Some? ==> counts.value == PositiveCounts(users, replies)
  {
    var unreadCounts: map<UserId, int> := map[];
    var i := 0;
    while i < |users|
      invariant 0 <= i <= |users|
      invariant forall j :: 0 <= j < i ==> replies(users[j].id).Some?
      invariant unreadCounts == PositiveCounts(users[..i], replies)
    {
      var reply := replies(users[i].id);
      if reply.None? {
        return None;
      }
      PositiveCountsStep(users[..i], users[i], replies);
      assert users[..i + 1] == users[..i] + [users[i]];
      if reply.value > 0 {
        unreadCounts := unreadCounts[users[i].id := reply.value];
      }
      i := i + 1;
    }
    assert users[..i] == users;
    counts := Some(unreadCounts);
  }

  class Store {
    var messages: seq<Message>
    var users: seq<ChatUser>
    var selectedUser: Option<ChatUser>
    var isUsersLoading: bool
    var isMessagesLoading: bool
    var unreadMessages: map<UserId, int>

    /** The store's initial state. */
    constructor ()
      ensures messages == [] && users == [] && selectedUser == None
      ensures !isUsersLoading && !isMessagesLoading && unreadMessages == map[]
    {
      messages, users, selectedUser := [], [], None;
      isUsersLoading, isMessagesLoading := false, false;
      unreadMessages := map[];
    }

    /** `getUsers`: load the user list, then each user's unread count; on
        success install both and clear the selection. Any failed request
        leaves the list, the map and the selection as they were. */
    method GetUsers(usersReply: Option<seq<ChatUser>>, unreadReplies: UserId -> Option<int>)
      modifies this
      ensures !isUsersLoading
      ensures messages == old(messages) && isMessagesLoading == old(isMessagesLoading)
      ensures usersReply.Some? && (forall i :: 0 <= i < |usersReply.value| ==> unreadReplies(usersReply.value[i].id).Some?) ==>
                && users == usersReply.value
                && unreadMessages == PositiveCounts(usersReply.value, unreadReplies)
                && selectedUser == None
      ensures usersReply.None? || (exists i :: 0 <= i < |usersReply.value| && unreadReplies(usersReply.value[i].id).None?) ==>
                users == old(users) && unreadMessages == old(unreadMessages) && selectedUser == old(selectedUser)
    {
      isUsersLoading := true;
      if usersReply.Some? {
        var counts := CollectUnreadCounts(usersReply.value, unreadReplies);
        if counts.Some? {
          users := usersReply.value;
          unreadMessages := counts.value;
          selectedUser := None;
        }
      }
      isUsersLoading := false;
    }

    /** `getMessages`: on success the open conversation becomes the fetched
        history and `userId`'s cached unread count is dropped; on failure
        nothing but the loading flag changes. */
    method GetMessages(userId: UserId, reply: Option<seq<Message>>)
      modifies this
      ensures !isMessagesLoading
      ensures users == old(users) && selectedUser == old(selectedUser) && isUsersLoading == old(isUsersLoading)
      ensures reply.Some? ==> messages == reply.value && unreadMessages == old(unreadMessages) - {userId}
      ensures reply.None? ==> messages == old(messages) && unreadMessages == old(unreadMessages)
    {
      isMessagesLoading := true;
      if reply.Some? {
        messages := reply.value;
        unreadMessages := unreadMessages - {userId};
      }
      isMessagesLoading := false;
    }

    /** `sendMessage`: post to the selected partner and append the message
        the server returns. Returns the partner the request went to; with
        no partner selected no request is made (the source's access to
        `selectedUser._id` throws inside the `try`). */
    method SendMessage(reply: Option<Message>) returns (sentTo: Option<UserId>)
      modifies this
      ensures sentTo == (if old(selectedUser).Some? then Some(old(selectedUser).value.id) else None)
      ensures sentTo.Some? && reply.Some? ==> messages == old(messages) + [reply.value]
      ensures sentTo.None? || reply.None? ==> messages == old(messages)
      ensures users == old(users) && selectedUser == old(selectedUser) && unreadMessages == old(unreadMessages)
      ensures isUsersLoading == old(isUsersLoading) && isMessagesLoading == old(isMessagesLoading)
    {
      sentTo := None;
      if selectedUser.Some? {
        sentTo := Some(selectedUser.value.id);
        if reply.Some? {
          messages := messages + [reply.value];
        }
      }
    }

    /** `subscribeToMessages`: register a `newMessage` handler bound to the
        partner selected now, or do nothing when none is selected. The
        result is the partner the registered handler captured. */
    method SubscribeToMessages() returns (subscription: Option<ChatUser>)
      ensures subscription == selectedUser
    {
      subscription := selectedUser;
    }

    /** The body of the handler `subscribeToMessages` registers, for the
        partner it captured: a message from that partner is appended to the
        open conversation, any other sender's cached count goes up by one. */
    method OnNewMessage(subscribedTo: ChatUser, newMessage: Message)
      modifies this
      ensures users == old(users) && selectedUser == old(selectedUser)
      ensures isUsersLoading == old(isUsersLoading) && isMessagesLoading == old(isMessagesLoading)
      ensures newMessage.senderId == subscribedTo.id ==>
                messages == old(messages) + [newMessage] && unreadMessages == old(unreadMessages)
      ensures newMessage.senderId != subscribedTo.id ==>
                messages == old(messages) && unreadMessages == Bumped(old(unreadMessages), newMessage.senderId)
    {
      if newMessage.senderId == subscribedTo.id {
        messages := messages + [newMessage];
      } else {
        unreadMessages := Bumped(unreadMessages, newMessage.senderId);
      }
    }

    /** `setSelectedUser`: select `user` (or clear the selection). Selecting
        a user drops that user's cached count and fetches the history,
        whose reply is `history`; clearing touches nothing else. */
    method SetSelectedUser(user: Option<ChatUser>, history: Option<seq<Message>>)
      modifies this
      ensures selectedUser == user
      ensures users == old(users) && isUsersLoading == old(isUsersLoading)
      ensures user.None? ==>
                messages == old(messages) && unreadMessages == old(unreadMessages)
                && isMessagesLoading == old(isMessagesLoading)
      ensures user.Some? ==> unreadMessages == old(unreadMessages) - {user.value.id} && !isMessagesLoading
      ensures user.Some? ==> messages == if history.Some? then history.value else old(messages)
    {
      selectedUser := user;
      if user.Some? {
        unreadMessages := unreadMessages - {user.value.id};
        GetMessages(user.value.id, history);
      }
    }

    /** `resetState`, on logout: empty conversation, user list, selection
        and unread cache. */
    method ResetState()
      modifies this
      ensures messages == [] && users == [] && selectedUser == None && unreadMessages == map[]
      ensures isUsersLoading == old(isUsersLoading) && isMessagesLoading == old(isMessagesLoading)
    {
      messages, users, selectedUser, unreadMessages := [], [], None, map[];
    }
  }
}
