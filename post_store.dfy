/** The client's feed state: the posts loaded so far, the cursor for the
    next page and the request flags, with the store's actions. Each
    request is modelled as completed: its reply is a parameter. */
module PostStore {
  import opened Wrappers
  import opened PostModel
  import opened PostController

  const FetchFailedMessage := "Failed to fetch posts"
  const CreateFailedMessage := "Failed to create post"
  /** The page size `fetchPosts` asks for when called without one. */
  const DefaultFetchLimit := 10

  /** A request's reply: the server's data, or a failure carrying the
      server's `message` when it sent one. */
  datatype Reply<T> = Ok(data: T) | Err(message: Option<string>)

  /** The URL a fetch requests: the page size, and the cursor when one is
      stored. */
  datatype FeedRequest = FeedRequest(limit: int, lastPostId: Option<PostId>)

  /** `error.response?.data?.message || fallback`: the server's message,
      unless it is missing or empty. */
  function ErrorText(message: Option<string>, fallback: string): (t: string)
    ensures message.Some? && message.value != "" ==> t == message.value
    ensures message.None? || message.value == "" ==> t == fallback
  {
    if message.Some? && message.value != "" then message.value else fallback
  }

  /** What `createPost` resolves to. */
  datatype CreateOutcome = Created(post: Post) | NotCreated(error: string)

  class PostFeed {
    var posts: seq<Post>
    var loading: bool
    var error: Option<string>
    var hasMore: bool
    var lastPostId: Option<PostId>

    /** The store's initial state. */
    constructor ()
      ensures posts == [] && !loading && error == None && hasMore && lastPostId == None
    {
      posts, loading, error, hasMore, lastPostId := [], false, None, true, None;
    }

    /** `fetchPosts(limit = 10)`: request the page after the stored cursor;
        on success append it and take the new `hasMore` and cursor, on
        failure keep the posts and record the error. `limit` is `None` when
        the caller passes no page size. */
    method FetchPosts(limit: Option<int>, reply: Reply<PageResponse>) returns (request: FeedRequest)
      modifies this
      ensures request == FeedRequest(if limit.Some? then limit.value else DefaultFetchLimit, old(lastPostId))
      ensures !loading
      ensures reply.Ok? ==>
                && posts == old(posts) + reply.data.posts
                && hasMore == reply.data.hasMore && lastPostId == reply.data.lastPostId
                && error == None
      ensures reply.Err? ==>
                && posts == old(posts) && hasMore == old(hasMore) && lastPostId == old(lastPostId)
                && error == Some(ErrorText(reply.message, FetchFailedMessage))
    {
      loading, error := true, None;
      request := FeedRequest(limit.GetOr(DefaultFetchLimit), lastPostId);
      if reply.Ok? {
        posts, hasMore, lastPostId, loading := posts + reply.data.posts, reply.data.hasMore, reply.data.lastPostId, false;
      } else {
        error, loading := Some(ErrorText(reply.message, FetchFailedMessage)), false;
      }
    }

    /** `createPost(postData)`: on success put the new post first, on
        failure keep the posts and report the error both in the state and
        in the outcome. */
    method CreatePost(postData: CreatePostBody, reply: Reply<Post>) returns (outcome: CreateOutcome)
      modifies this
      ensures !loading
      ensures hasMore == old(hasMore) && lastPostId == old(lastPostId)
      ensures reply.Ok? ==> posts == [reply.data] + old(posts) && error == None && outcome == Created(reply.data)
      ensures reply.Err? ==>
                && posts == old(posts)
                && error == Some(ErrorText(reply.message, CreateFailedMessage))
                && outcome == NotCreated(ErrorText(reply.message, CreateFailedMessage))
    {
      loading, error := true, None;
      if reply.Ok? {
        posts, loading := [reply.data] + posts, false;
        outcome := Created(reply.data);
      } else {
        error, loading := Some(ErrorText(reply.message, CreateFailedMessage)), false;
        outcome := NotCreated(ErrorText(reply.message, CreateFailedMessage));
      }
    }

    /** `clearPosts`: back to an empty feed that starts from the newest
        post; `loading` is left alone. */
    method ClearPosts()
      modifies this
      ensures posts == [] && hasMore && lastPostId == None && error == None
      ensures loading == old(loading)
    {
      posts, hasMore, lastPostId, error := [], true, None, None;
    }

    /** `clearError`: forget the last error and nothing else. */
    method ClearError()
      modifies this`error
      ensures error == None
    {
      error := None;
    }
  }

  /** Two successful fetches in a row load consecutive pages: the second
      request carries the first page's cursor and the feed holds both pages
      in order. */
  method FetchTwoPages(feed: PostFeed, limit: Option<int>, first: PageResponse, second: PageResponse)
    returns (r1: FeedRequest, r2: FeedRequest)
    modifies feed
    ensures r1.lastPostId == old(feed.lastPostId) && r2.lastPostId == first.lastPostId
    ensures feed.posts == old(feed.posts) + first.posts + second.posts
    ensures feed.hasMore == second.hasMore && feed.lastPostId == second.lastPostId
  {
    r1 := feed.FetchPosts(limit, Ok(first));
    r2 := feed.FetchPosts(limit, Ok(second));
  }
}
