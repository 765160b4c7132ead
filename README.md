# SquadGG messaging and posts: a Dafny model

This project models two small cores of a social/gaming web app and proves
properties about them.

1. **Direct messages.**
   - Server side: the message collection and its five handlers. They list chat partners, fetch a two-party conversation (marking it read), send a message (with a best-effort push to the receiver), count unread messages and mark a conversation read.
   - Client side: the chat store's state (the open conversation, the selected partner, a per-partner unread cache) and its actions.
   - The application-level `newMessage` push handler.
2. **Posts.**
   - Server side: `createPost`'s validation and normalisation, and `getAllPosts`, a keyset paginator (public posts, newest first, strictly older than a cursor post, at most `limit`, with `hasMore`).
   - Client side: the feed store's actions.
   - The create-post form's handlers.
   - The Post schema's defaults and validation.
   - The profile page's `formatTimeAgo`.

Modules follow the source files:

| module | file | models |
|---|---|---|
| `MessageController` | message_controller.dfy | `backend/src/controllers/message.controller.js` |
| `ChatStore` | chat_store.dfy | `frontend/src/features/chat/store/useChatStore.js` |
| `App` | app.dfy | `handleNewMessage` in `frontend/src/App.jsx` |
| `PostModel` | post_model.dfy | `backend/src/models/post.model.js` |
| `PostController` | post_controller.dfy | `backend/src/controllers/post.controller.js` |
| `PostStore` | post_store.dfy | `frontend/src/features/posts/store/usePostStore.js` |
| `CreatePostModal` | create_post_modal.dfy | the handlers of `CreatePostModal.jsx` |
| `ProfilePage` | profile_page.dfy | `formatTimeAgo` in `ProfilePage.jsx` |
| `ChatTypes` | chat_types.dfy | the Message record of `frontend/src/features/chat/types.js`, and the user record as the sidebar query returns it: types.js's ChatUser plus the `email` the query also sends, with a missing `profilePic` as the empty string |
| `Text`, `Seqs`, `Wrappers` | text.dfy, seqs.dfy, wrappers.dfy | JavaScript `trim`/`split`/`length`/number rendering, order-keeping filters, Option/Result |

Several parts change state in place: the message collection, the post collection, the two client stores and the form. Each is a `class`. Its methods carry `modifies` clauses, and their `ensures` give the new state in terms of the old one. The queries and the normalisation are pure functions, and lemmas prove what the source promises about them.

Each asynchronous client action is modelled as one completed step. The server's reply is a parameter: `None`/`Err` stands for a failed request. The outside world enters as parameters too:
- the image host's URL for an uploaded picture;
- the user-id → socket-id presence map;
- the current time;
- the elapsed milliseconds shown by `formatTimeAgo`.

### Behaviour of the code worth knowing

- `getMessages` asks for no sort order.
- `getMessages` answers with the records it found *before* `updateMany` ran. The response therefore still shows `isRead == false` on messages that the same call has just marked read. `MessageStore.GetMessages`, `ConversationOfMarked` and `SendOfflineThenFetch` state this.
- `sendMessage` does not check that text or image is present. Any body is stored.
- The client's `getMessages` does not check that its reply still belongs to the selected partner. If the fetch started by `setSelectedUser` fails, the previous partner's messages stay on screen under the new selection (`Store.SetSelectedUser`).

## Model

| member | source | states |
|---|---|---|
| `MessageController.UsersForSidebar` | backend/src/controllers/message.controller.js:6-16 | Lists every directory user except the caller, with the password dropped. Every listed user comes from the directory and is not the caller, and every other directory user is listed. |
| `MessageController.Conversation` | backend/src/controllers/message.controller.js:23-28 | The `$or` query: every message returned was sent from me to other or from other to me and is a stored message. Every stored message between the two is returned. |
| `MessageController.ConversationSymmetric` | backend/src/controllers/message.controller.js:23-28 | The conversation is the same whichever of the two parties asks. |
| `MessageController.UnreadCount` | backend/src/controllers/message.controller.js:91-95 | `countDocuments`: at most the size of the store, and 0 exactly when no message from other to me is unread. |
| `MessageController.MarkedRead` | backend/src/controllers/message.controller.js:110-117 | `updateMany` keeps the collection's length. Position i holds message i with its flag set exactly when it was unread from other to me. |
| `MessageController.MarkedReadFrame` | backend/src/controllers/message.controller.js:110-117 | Marking read changes no field except `isRead`. It never turns a flag off and touches only messages from other to me. All of those end up read. |
| `MessageController.MarkedReadClearsUnread` | backend/src/controllers/message.controller.js:110-117 | After marking, the unread count for (me, other) is 0. |
| `MessageController.MarkedReadOtherPairs` | backend/src/controllers/message.controller.js:32-39 | Marking one ordered pair read leaves every other pair's unread count unchanged. |
| `MessageController.MarkedReadIdempotent` | backend/src/controllers/message.controller.js:110-117 | Marking read twice is the same as marking read once. |
| `MessageController.EmptyConversationNothingToMark` | backend/src/controllers/message.controller.js:31-40 | With an empty conversation nothing is unread, and marking would change nothing. Skipping `updateMany` in that case loses nothing. |
| `MessageController.ConversationOfMarked` | backend/src/controllers/message.controller.js:23-42 | The conversation stored after the update is the response with its flags marked. The response itself is the snapshot taken before the update. |
| `MessageController.SendExtendsConversation` | backend/src/controllers/message.controller.js:63-70 | A sent message joins its pair's conversation, after every earlier message in insertion order, and adds exactly one to the receiver's unread count for the sender. |
| `MessageController.MessageStore.GetMessages` | backend/src/controllers/message.controller.js:18-48 | Returns the pre-update conversation. Afterwards the store is the marked-read collection, nothing from the partner to the caller is unread, and the stored conversation equals the response with its flags marked. |
| `MessageController.MessageStore.SendMessage` | backend/src/controllers/message.controller.js:50-83 | Appends exactly one new unread record: fresh id, caller as sender, path id as receiver, the given text, the hosted image only when an image was sent. No existing record changes. A `newMessage` notification goes to the receiver's socket exactly when one is registered. The send succeeds either way. |
| `MessageController.MessageStore.GetUnreadMessages` | backend/src/controllers/message.controller.js:85-102 | Returns the number of unread messages from other to me and changes nothing. |
| `MessageController.MessageStore.MarkMessagesAsRead` | backend/src/controllers/message.controller.js:104-124 | The store becomes the marked-read collection and the unread count for the pair is 0. |
| `MessageController.SendOfflineThenFetch` | backend/src/controllers/message.controller.js:50-83 | A message sent with no live connection is still stored. The receiver's next fetch of an empty conversation returns exactly that message, still flagged unread, and leaves the unread count at 0. |
| `ChatStore.Bumped` | frontend/src/features/chat/store/useChatStore.js:81-83 | The sender's cached count becomes old value + 1, with an absent key read as 0. Every other key is unchanged. |
| `ChatStore.CollectUnreadCounts` | frontend/src/features/chat/store/useChatStore.js:19-26 | The loop fails exactly when some user's count request fails. Otherwise it yields the map of users with a positive count. |
| `ChatStore.PositiveCounts` | frontend/src/features/chat/store/useChatStore.js:20-26 | The map has a key only for listed users whose count is greater than 0, holding that count. Every such user has its key. |
| `ChatStore.Store.constructor` | frontend/src/features/chat/store/useChatStore.js:6-12 | The initial state: everything empty, nothing selected, not loading. |
| `ChatStore.Store.GetUsers` | frontend/src/features/chat/store/useChatStore.js:14-38 | On success, installs the user list and the positive-count map, and clears the selection. On any failure, list, map and selection are unchanged. The loading flag ends false. |
| `ChatStore.Store.GetMessages` | frontend/src/features/chat/store/useChatStore.js:40-54 | On success, the open list is replaced by the fetched one and that user's key is deleted. On failure nothing changes except the loading flag. |
| `ChatStore.Store.SendMessage` | frontend/src/features/chat/store/useChatStore.js:56-64 | On success, the open list becomes the old list with the server's message appended. On failure, or with no partner selected, it is unchanged. |
| `ChatStore.Store.SubscribeToMessages` | frontend/src/features/chat/store/useChatStore.js:66-70 | Registers nothing when nobody is selected. Otherwise the handler captures the partner selected at that moment. |
| `ChatStore.Store.OnNewMessage` | frontend/src/features/chat/store/useChatStore.js:72-85 | A message from the captured partner is appended and the unread map is unchanged. Any other sender's count goes up by one, and the open list is unchanged. |
| `ChatStore.Store.SetSelectedUser` | frontend/src/features/chat/store/useChatStore.js:93-103 | Sets the selection. Selecting a user deletes only that user's key and loads the history. Selecting `null` changes nothing else and starts no fetch. |
| `ChatStore.Store.ResetState` | frontend/src/features/chat/store/useChatStore.js:105-113 | Clears the open list, the users, the selection and the unread map. |
| `App.HandleNewMessage` | frontend/src/App.jsx:34-48 | A message from the selected partner is appended and the unread map is unchanged. Otherwise the open list is unchanged and only the sender's count goes up by one; this includes the case where nobody is selected. Exactly one of the two happens, and the selection never changes. |
| `App.SelectThenReceive` | frontend/src/App.jsx:38-41 | After opening partner P and then receiving a message from P, the open list is P's history followed by that message, and P's cached count is 0. |
| `App.ReceiveFromOther` | frontend/src/App.jsx:42-47 | A message from Q while P is open leaves the list unchanged and raises Q's count by exactly 1. |
| `PostModel.NewPost` | backend/src/models/post.model.js:3-44 | A new document takes the schema defaults: no image, empty images, tags and likes, no game, public. The `trim` setters apply to tags and game. |
| `PostModel.Validate` | backend/src/models/post.model.js:4-8 | Saving succeeds exactly when the content is non-empty and its JavaScript `length`, counted in UTF-16 code units, is at most 2000. Empty content is the "missing" failure. |
| `PostModel.ToJson` | backend/src/models/post.model.js:49-55 | The serialised post carries `likeCount` equal to the length of `likes`. |
| `PostController.TagsWellFormed` | backend/src/controllers/post.controller.js:18 | Every processed tag is non-empty, trimmed and free of commas. |
| `PostController.TagsOfAppend` | backend/src/controllers/post.controller.js:18 | The tags of `a,b` are the tags of `a` followed by the tags of `b`: order is kept and pieces are handled independently. |
| `PostController.TagsOfSingle` | backend/src/controllers/post.controller.js:18 | A comma-free piece gives its trimmed self as the only tag, or no tag when it is blank. |
| `PostController.ProcessTagsMissing` | backend/src/controllers/post.controller.js:18 | Missing or empty tags give `[]`. |
| `PostController.ProcessTags` | backend/src/controllers/post.controller.js:18 | Missing or empty tags give no tags. Otherwise every tag is non-empty, trimmed and free of commas. |
| `PostController.NormalizeGame` | backend/src/controllers/post.controller.js:25 | `game` is the trimmed value, or null when it is missing or blank. |
| `PostController.Normalize` | backend/src/controllers/post.controller.js:9-29 | Missing or whitespace-only content fails with "content required". Otherwise: content trimmed, tags processed, game normalised, `isPublic` true unless exactly false, background or null, images or `[]`. |
| `PostController.NormalizedPostSaves` | backend/src/controllers/post.controller.js:21-31 | Normalised tags and game pass the schema's trim setters unchanged. The only way the save can fail is content longer than 2000 UTF-16 code units. |
| `PostController.EffectiveLimit` | backend/src/controllers/post.controller.js:54 | The limit is the parsed value, or 10 when it is missing, unparseable or 0. |
| `PostController.Lookup` | backend/src/controllers/post.controller.js:61 | Finds the stored post with the cursor id, or reports that no stored post has it. |
| `PostController.SortNewestFirst` | backend/src/controllers/post.controller.js:69 | The result is a permutation of the input, sorted by `createdAt` descending. |
| `PostController.LimitTo` | backend/src/controllers/post.controller.js:70 | `.limit(n)` keeps a prefix of length min(\|n\|, size), or everything when n is 0. |
| `PostController.PageOf` | backend/src/controllers/post.controller.js:57-80 | Returns only public posts, strictly older than the cursor date when one is set. The page is newest first, holds only stored posts and has at most \|limit\| entries. `hasMore` holds iff the length equals `limit`. `lastPostId` is the id of the last post, or null for an empty page. |
| `PostController.LastId` | backend/src/controllers/post.controller.js:80 | `lastPostId` is null exactly for an empty page; otherwise it is the id of the page's last post. |
| `PostController.PageComplete` | backend/src/controllers/post.controller.js:67-70 | A matching post missing from the page means the page is full and its last post is not older than the missing one. |
| `PostController.NoMoreMeansEverything` | backend/src/controllers/post.controller.js:73 | With a positive limit, `hasMore == false` means the page holds every matching post. |
| `PostController.NegativeLimitNeverHasMore` | backend/src/controllers/post.controller.js:70-73 | A negative limit still bounds the page, but `hasMore` is then always false. |
| `PostController.NextPageIsOlder` | backend/src/controllers/post.controller.js:60-65 | Every post of the page after a cursor is strictly older than every post of the cursor's page. |
| `PostController.PostCollection.CreatePost` | backend/src/controllers/post.controller.js:4-49 | Blank content gives a 400 failure and stores nothing. Content longer than 2000 UTF-16 code units fails the save, gives a 500 and stores nothing. Otherwise exactly the normalised post is appended. |
| `PostController.PostCollection.GetAllPosts` | backend/src/controllers/post.controller.js:52-91 | Answers with the page of the query: public posts, older than the cursor post only when the cursor names a stored post, and the effective limit. |
| `PostStore.ErrorText` | frontend/src/features/posts/store/usePostStore.js:31 | `error.response?.data?.message || fallback`: the server's message when it is present and non-empty, otherwise the fallback text. The same expression is used at lines 52 and 55. |
| `PostStore.PostFeed.constructor` | frontend/src/features/posts/store/usePostStore.js:4-9 | The initial state: no posts, not loading, no error, `hasMore`, no cursor. |
| `PostStore.PostFeed.FetchPosts` | frontend/src/features/posts/store/usePostStore.js:12-35 | The request carries the given page size, or 10 when none is passed, and the stored cursor exactly when one is stored. On success, posts become the old posts followed by the page, and `hasMore` and the cursor come from the reply. On failure, posts, `hasMore` and cursor are kept. The error is the server's message, or "Failed to fetch posts" when that message is missing or empty. `loading` always ends false. |
| `PostStore.PostFeed.CreatePost` | frontend/src/features/posts/store/usePostStore.js:38-57 | On success, the new post goes first, the error is cleared and the outcome is success. On failure, posts are unchanged. State and outcome both carry the server's message, or "Failed to create post" when it is missing or empty. `hasMore` and the cursor never change, and `loading` ends false. |
| `PostStore.PostFeed.ClearPosts` | frontend/src/features/posts/store/usePostStore.js:60-67 | Sets posts to `[]`, `hasMore` to true, cursor and error to null. `loading` is untouched. |
| `PostStore.PostFeed.ClearError` | frontend/src/features/posts/store/usePostStore.js:70-72 | Changes only `error`, to null. |
| `PostStore.FetchTwoPages` | frontend/src/features/posts/store/usePostStore.js:15-28 | After two successful fetches, the second request carries the first page's cursor and the feed holds both pages in order. |
| `CreatePostModal.WithoutIndex` | frontend/src/features/posts/components/CreatePostModal.jsx:56-61 | Removes exactly index i and keeps the rest in order. An out-of-range i removes nothing. |
| `CreatePostModal.WithoutIndexKeepsPairing` | frontend/src/features/posts/components/CreatePostModal.jsx:56-61 | Removing one index from files and previews of equal length keeps them paired position by position. |
| `CreatePostModal.BuildPayload` | frontend/src/features/posts/components/CreatePostModal.jsx:113-120 | Content is trimmed. The background is sent only for a text post; otherwise it is null. Images are the previews only for a media post; otherwise `[]`. Tags, game and visibility are passed as entered. |
| `CreatePostModal.PayloadAccepted` | frontend/src/features/posts/components/CreatePostModal.jsx:108-120 | A payload built from non-blank content passes the server's check. The server keeps the same trimmed content, the form's visibility and its images. |
| `CreatePostModal.PostForm.constructor` | frontend/src/features/posts/components/CreatePostModal.jsx:7-17 | Every field starts at its initial value. |
| `CreatePostModal.PostForm.RemoveImage` | frontend/src/features/posts/components/CreatePostModal.jsx:56-61 | Removes index i from both the files and the previews. |
| `CreatePostModal.PostForm.SelectTextBackground` | frontend/src/features/posts/components/CreatePostModal.jsx:63-68 | Sets the background to the chosen template's colours. |
| `CreatePostModal.PostForm.ChangePostType` | frontend/src/features/posts/components/CreatePostModal.jsx:70-76 | Switching to "text" empties files and previews. Switching to "media" keeps them. |
| `CreatePostModal.PostForm.Submit` | frontend/src/features/posts/components/CreatePostModal.jsx:105-132 | Whitespace-only content sends nothing and changes nothing, feed included. Otherwise the payload goes to the feed store, and the feed ends with `loading` false and its `hasMore` and cursor kept. On success: the new post is first in the feed, the error is cleared, content, tags and game reset to "" and visibility to true, and the form asks to close. On failure: the feed's posts are kept, its error is set as `createPost` sets it, and the form is unchanged. Images, type and background are always kept. |
| `CreatePostModal.PostForm.Close` | frontend/src/features/posts/components/CreatePostModal.jsx:134-151 | Resets every field to its initial value, including type "text" and the default background, and asks to close. |
| `ProfilePage.ElapsedSeconds` | frontend/src/pages/ProfilePage.jsx:36 | Elapsed seconds is the floor of ms / 1000, also for negative differences. |
| `ProfilePage.FormatTimeAgo` | frontend/src/pages/ProfilePage.jsx:33-42 | Stated in milliseconds: under 60000 shows "Just now". Below an hour it shows floor(ms / 60000) + "m ago", below a day floor(ms / 3600000) + "h ago", and otherwise floor(ms / 86400000) + "d ago". An unparseable date shows "NaNd ago". |
| `ProfilePage.FloorOfFloor` | frontend/src/pages/ProfilePage.jsx:36-41 | Flooring to seconds and then to minutes, hours or days equals flooring the milliseconds directly. |
| `ProfilePage.Bucket` | frontend/src/pages/ProfilePage.jsx:38-41 | The buckets are exhaustive and disjoint. Under 60 s (future times included) gives "Just now". 60..3599 gives minutes in 1..59, 3600..86399 gives hours in 1..23, and from 86400 on gives days ≥ 1. Each count is the floor of the elapsed time in its unit. |
| `ProfilePage.Render` | frontend/src/pages/ProfilePage.jsx:38-41 | Every label is non-empty, and it starts with a digit exactly for the minute, hour and day labels. |
| `ProfilePage.RenderInjective` | frontend/src/pages/ProfilePage.jsx:38-41 | Different buckets or counts never render the same text. |
| `ProfilePage.SameLabelIff` | frontend/src/pages/ProfilePage.jsx:33-42 | Two ages show the same text exactly when they fall in the same bucket with the same count. |
| `Text.TrimIdempotent` | backend/src/controllers/post.controller.js:22 | Trimming already-trimmed content (client, then server) changes nothing. |
| `Text.TrimEmptyIff` | backend/src/controllers/post.controller.js:10 | `trim()` is empty exactly when the string is whitespace only. |
| `Text.TrimSlice` | backend/src/controllers/post.controller.js:22 | `trim()` keeps a contiguous slice, cuts only whitespace and leaves no whitespace at either end. |
| `Text.JoinSplit` | backend/src/controllers/post.controller.js:18 | Joining the pieces of `split(',')` with commas gives back the original string. |
| `Text.SplitAppend` | backend/src/controllers/post.controller.js:18 | Splitting `a,b` gives the pieces of `a` followed by the pieces of `b`. |
| `Text.DecimalRoundTrip` | frontend/src/pages/ProfilePage.jsx:39-41 | The rendered count reads back as the same number, so rendering is injective. |
| `Text.Utf16Length` | backend/src/models/post.model.js:4-8 | JavaScript `length`: between the number of characters and twice that. |
| `Text.Utf16LengthAppend` | backend/src/models/post.model.js:4-8 | `length` adds up over concatenation. |
| `Text.Utf16LengthIsSize` | backend/src/models/post.model.js:4-8 | `length` equals the number of characters exactly when no character lies above U+FFFF. |

## Left out

- Image upload to the image host (`cloudinary.uploader.upload`). The hosted URL is a parameter of `SendMessage`; the host itself is not part of this model (backend/src/lib/cloudinary.js).
- Socket plumbing:
  - `getReceiverSocketId` and `io.to().emit` (lib/socket.js is not part of this model) are replaced by a presence map and a returned notification.
  - `socket.on`/`off` registration is reduced to the handler bodies.
  - The App-level handler and the `subscribeToMessages` handler can be registered at the same time, so one push can be handled twice. That is a registration concern outside this sequential model.
- Result order of `find` without `sort` in `getMessages`: MongoDB promises none. The model fixes insertion order, and every statement about the position of a message in a conversation rests on that assumption. This includes "last message" in `SendExtendsConversation`. Membership statements do not depend on it.
- Interleavings of asynchronous calls. Examples: `sendMessage` appending to a snapshot taken before its `await`, and a history fetch completing after another partner was selected. Every action is one atomic step.
- HTTP status codes, toasts, `alert`, `console` logging and the JSON wrappers. These become success/failure values. The client `SendMessage` with no partner selected throws inside the source's `try`; here that is "no request, no change".
- Mongoose machinery:
  - `populate('author')` and `updatedAt` timestamps are not modelled.
  - Cast errors for malformed ids are not modelled: ids are numbers or strings that are always well formed.
  - The order of posts with equal `createdAt` is unspecified in the database. The model fixes one order, and its properties hold for any order.
- `PostController.PageOf`: a limit of 0 (no limit in the database) cannot occur, because `parseInt(...) || 10` turns 0 into 10. The function therefore requires a non-zero limit.
- `MessageController.UsersForSidebar`: its contract states membership in both directions, but not that directory order is kept or that a user listed once in the directory appears once.
- `handleImageChange` and `generateTextImage` (FileReader and canvas work) are not modelled. `generateTextImage` refers to an undefined `textOverlay`. Also not modelled: the file input reset in `handleClose`, `handleImageUpload` on the profile page, and all JSX rendering.
- Request fields that are not strings: `isPublic` is modelled as "exactly `false`" or anything else, which is all the code distinguishes. `tags`, `game` and `content` are modelled as strings or missing.
- The current time in `formatTimeAgo` is an input: the elapsed milliseconds, or `None` for an unparseable date, which renders "NaNd ago".
- The Message schema (message.model.js) and the User model are not part of this model. Message ids and timestamps are assigned by the modelled store.
