/** The server's post handlers: `createPost`, which validates and
    normalises the request body before saving, and `getAllPosts`, a keyset
    paginator over public posts, newest first. */
module PostController {
  import opened Wrappers
  import opened Seqs
  import opened Text
  import opened ChatTypes
  import opened PostModel

  /** The JSON body of a create request; an absent field is `None`.
      `isPublic` is `Some(b)` only for a boolean `b`. */
  datatype CreatePostBody = CreatePostBody(
    content: Option<string>,
    tags: Option<string>,
    game: Option<string>,
    isPublic: Option<bool>,
    textBackground: Option<TextBackground>,
    images: Option<seq<string>>)

  /** 400 "Content is required", or 500 when saving fails. */
  datatype CreateError = ContentRequired | InternalError

  predicate NonEmpty(s: string) { |s| > 0 }

  /** The tags of a comma-separated list: each piece trimmed, empty pieces
      dropped, order kept. */
  function TagsOf(s: string): (r: seq<string>)
  {
    Filter(TrimAll(Split(s, ',')), NonEmpty)
  }

  /** Every tag is non-empty, has no surrounding whitespace and holds no
      comma. */
  lemma TagsWellFormed(s: string)
    ensures forall i :: 0 <= i < |TagsOf(s)| ==>
              TagsOf(s)[i] != [] && ',' !in TagsOf(s)[i] && Trim(TagsOf(s)[i]) == TagsOf(s)[i]
  {
    var pieces := Split(s, ',');
    var r := TagsOf(s);
    forall i | 0 <= i < |r| ensures r[i] != [] && ',' !in r[i] && Trim(r[i]) == r[i] {
      assert r[i] in TrimAll(pieces);
      var j :| 0 <= j < |pieces| && TrimAll(pieces)[j] == r[i];
      TrimSlice(pieces[j]);
      TrimIdempotent(pieces[j]);
      assert ',' !in pieces[j];
    }
  }

  /** The tag processing of `createPost`: a missing or empty `tags` gives no
      tags. */
  function ProcessTags(tags: Option<string>): (r: seq<string>)
    ensures forall i :: 0 <= i < |r| ==> r[i] != [] && Trim(r[i]) == r[i] && ',' !in r[i]
  {
    if tags.Some? && tags.value != [] then TagsWellFormed(tags.value); TagsOf(tags.value) else []
  }

  /** An empty tag list gives no tags whichever branch handles it. */
  lemma ProcessTagsMissing(tags: Option<string>)
    requires tags.None? || tags.value == []
    ensures ProcessTags(tags) == [] && TagsOf([]) == []
  {
  }

  /** Tags of a list joined at a comma are the tags of each side, in order. */
  lemma TagsOfAppend(a: string, b: string)
    ensures TagsOf(a + [','] + b) == TagsOf(a) + TagsOf(b)
  {
    SplitAppend(a, b, ',');
    TrimAllAppend(Split(a, ','), Split(b, ','));
    FilterAppend(TrimAll(Split(a, ',')), TrimAll(Split(b, ',')), NonEmpty);
  }

  /** A piece without a comma is one tag, its trim, unless it is blank. */
  lemma TagsOfSingle(s: string)
    requires ',' !in s
    ensures TagsOf(s) == if Trim(s) == [] then [] else [Trim(s)]
  {
    SplitNoSeparator(s, ',');
    assert TrimAll([s]) == [Trim(s)];
  }

  /** `game?.trim() || null`: the trimmed name, or none when it is missing or
      blank. */
  function NormalizeGame(game: Option<string>): (r: Option<string>)
    ensures r.None? <==> game.None? || AllWhitespace(game.value)
    ensures r.Some? ==> r.value == Trim(game.value) && r.value != []
  {
    if game.None? then None
    else
      TrimEmptyIff(game.value);
      if Trim(game.value) != [] then Some(Trim(game.value)) else None
  }

  /** The validation and normalisation `createPost` does before saving. */
  function Normalize(body: CreatePostBody, author: UserId): (r: Result<PostFields, CreateError>)
    ensures r.Failure? <==> body.content.None? || AllWhitespace(body.content.value)
    ensures r.Failure? ==> r.error == ContentRequired
    ensures r.Success? ==>
              && r.value.content == Trim(body.content.value) && r.value.content != []
              && r.value.author == author
              && r.value.tags == Some(ProcessTags(body.tags))
              && r.value.game == NormalizeGame(body.game)
              && r.value.isPublic == Some(body.isPublic != Some(false))
              && r.value.textBackground == body.textBackground
              && r.value.images == Some(body.images.GetOr([]))
              && r.value.image == None
  {
    if body.content.None? then Failure(ContentRequired)
    else
      TrimEmptyIff(body.content.value);
      if Trim(body.content.value) == [] then Failure(ContentRequired)
      else Success(PostFields(Trim(body.content.value), author, None, Some(body.images.GetOr([])),
                            body.textBackground, Some(ProcessTags(body.tags)), NormalizeGame(body.game),
                            Some(body.isPublic != Some(false))))
  }

  /** The schema's `trim` setters find the normalised tags and game already
      trimmed, and only over-long content can fail validation. */
  lemma NormalizedPostSaves(body: CreatePostBody, author: UserId, id: PostId, now: int)
    requires Normalize(body, author).Success?
    ensures var p := NewPost(Normalize(body, author).value, id, now);
      && p.tags == ProcessTags(body.tags) && p.game == NormalizeGame(body.game)
      && (Validate(p).Success? <==> Utf16Length(p.content) <= MaxContentLength)
  {
    var f := Normalize(body, author).value;
    var p := NewPost(f, id, now);
    if body.game.Some? && f.game.Some? {
      TrimIdempotent(body.game.value);
    }
    var tags := ProcessTags(body.tags);
    if body.tags.Some? && body.tags.value != [] {
      TagsWellFormed(body.tags.value);
    }
    assert p.tags == tags;
  }

  // ---- getAllPosts ----

  /** `parseInt(req.query.limit) || 10`: `None` stands for a missing or
      unparseable parameter (NaN). */
  function EffectiveLimit(limitParam: Option<int>): (n: int)
    ensures n != 0
    ensures limitParam.None? || limitParam.value == 0 ==> n == 10
    ensures limitParam.Some? && limitParam.value != 0 ==> n == limitParam.value
  {
    if limitParam.Some? && limitParam.value != 0 then limitParam.value else 10
  }

  /** The stored post with id `id`, if any (`findById`). */
  function Lookup(posts: seq<Post>, id: PostId): (r: Option<Post>)
    ensures r.Some? ==> r.value in posts && r.value.id == id
    ensures r.None? ==> forall i :: 0 <= i < |posts| ==> posts[i].id != id
  {
    if posts == [] then None
    else if posts[0].id == id then Some(posts[0])
    else Lookup(posts[1..], id)
  }

  /** A post the query matches: public and, when a cursor date is set,
      strictly older than it. */
  predicate Matches(p: Post, before: Option<int>) {
    p.isPublic && (before.None? || p.createdAt < before.value)
  }

  predicate NewestFirst(ps: seq<Post>) {
    forall i, j :: 0 <= i < j < |ps| ==> ps[i].createdAt >= ps[j].createdAt
  }

  /** `p` placed before the first post of `sorted` that is not newer. */
  function Insert(p: Post, sorted: seq<Post>): (r: seq<Post>)
    ensures multiset(r) == multiset(sorted) + multiset{p}
  {
    if sorted == [] then [p]
    else if p.createdAt >= sorted[0].createdAt then [p] + sorted
    else
      assert sorted == [sorted[0]] + sorted[1..];
      [sorted[0]] + Insert(p, sorted[1..])
  }

  lemma {:induction false} InsertSorted(p: Post, sorted: seq<Post>)
    requires NewestFirst(sorted)
    ensures NewestFirst(Insert(p, sorted))
  {
    if sorted == [] {
    } else if p.createdAt >= sorted[0].createdAt {
      ConsNewestFirst(p, sorted);
    } else {
      var tail := sorted[1..];
      assert NewestFirst(tail) by {
        forall i, j | 0 <= i < j < |tail| ensures tail[i].createdAt >= tail[j].createdAt {
          assert tail[i] == sorted[i + 1] && tail[j] == sorted[j + 1];
        }
      }
      forall i | 0 <= i < |tail| ensures tail[i].createdAt <= sorted[0].createdAt {
        assert tail[i] == sorted[i + 1];
      }
      InsertSorted(p, tail);
      InsertBounded(p, tail, sorted[0].createdAt);
      ConsNewestFirst(sorted[0], Insert(p, tail));
    }
  }

  /** A post no older than every post of a newest-first sequence can go
      in front of it. */
  lemma ConsNewestFirst(x: Post, rest: seq<Post>)
    requires NewestFirst(rest)
    requires forall i :: 0 <= i < |rest| ==> rest[i].createdAt <= x.createdAt
    ensures NewestFirst([x] + rest)
  {
    var r := [x] + rest;
    forall i, j | 0 <= i < j < |r| ensures r[i].createdAt >= r[j].createdAt {
      assert r[j] == rest[j - 1];
      if i > 0 { assert r[i] == rest[i - 1]; }
    }
  }

  /** Inserting a post no newer than `t` into posts no newer than `t`
      gives posts no newer than `t`. */
  lemma {:induction false} InsertBounded(p: Post, s: seq<Post>, t: int)
    requires p.createdAt <= t
    requires forall i :: 0 <= i < |s| ==> s[i].createdAt <= t
    ensures forall i :: 0 <= i < |Insert(p, s)| ==> Insert(p, s)[i].createdAt <= t
  {
    if s != [] && p.createdAt < s[0].createdAt {
      InsertBounded(p, s[1..], t);
      var r := Insert(p, s);
      assert r == [s[0]] + Insert(p, s[1..]);
      forall i | 0 <= i < |r| ensures r[i].createdAt <= t {
        if i > 0 { assert r[i] == Insert(p, s[1..])[i - 1]; }
      }
    }
  }

  /** `sort({createdAt: -1})`: the same posts, newest first. */
  function SortNewestFirst(ps: seq<Post>): (r: seq<Post>)
    ensures NewestFirst(r)
    ensures multiset(r) == multiset(ps)
  {
    if ps == [] then []
    else
      assert ps == [ps[0]] + ps[1..];
      var rest := SortNewestFirst(ps[1..]);
      InsertSorted(ps[0], rest);
      Insert(ps[0], rest)
  }

  /** `.limit(n)`: at most |n| results (a negative limit asks for a single
      batch of |n|); 0 would mean no limit. */
  function LimitTo(ps: seq<Post>, n: int): (r: seq<Post>)
    ensures |r| <= |ps| && r == ps[..|r|]
    ensures n != 0 ==> |r| == if |ps| < Abs(n) then |ps| else Abs(n)
  {
    if n == 0 || |ps| <= Abs(n) then ps else ps[..Abs(n)]
  }

  function Abs(n: int): nat { if n < 0 then -n else n }

  /** The response body of `getAllPosts`. */
  datatype PageResponse = PageResponse(posts: seq<Post>, hasMore: bool, lastPostId: Option<PostId>)

  /** The posts the query `{isPublic: true, createdAt: {$lt: before}}`,
      sorted newest first and limited to `limit`, returns. */
  function Page(posts: seq<Post>, before: Option<int>, limit: int): seq<Post>
    requires limit != 0
  {
    LimitTo(SortNewestFirst(Filter(posts, (p: Post) => Matches(p, before))), limit)
  }

  /** What the query promises of a page: only matching posts, newest
      first, only stored posts, at most |limit| of them. */
  predicate PageFits(page: seq<Post>, posts: seq<Post>, before: Option<int>, limit: int) {
    && (forall i :: 0 <= i < |page| ==> Matches(page[i], before))
    && NewestFirst(page)
    && multiset(page) <= multiset(posts)
    && |page| <= Abs(limit)
  }

  /** The response `getAllPosts` builds around that page. */
  function PageOf(posts: seq<Post>, before: Option<int>, limit: int): (r: PageResponse)
    requires limit != 0
    ensures PageFits(r.posts, posts, before, limit)
    ensures r.hasMore <==> |r.posts| == limit
    ensures r.lastPostId == LastId(r.posts)
  {
    var page := Page(posts, before, limit);
    PageFacts(posts, before, limit);
    PageResponse(page, |page| == limit, LastId(page))
  }

  /** The id of the last post of a page, or null for an empty page. */
  function LastId(page: seq<Post>): (r: Option<PostId>)
    ensures r.None? <==> page == []
    ensures r.Some? ==> r.value == page[|page| - 1].id
  {
    if |page| == 0 then None else Some(page[|page| - 1].id)
  }

  lemma PageFacts(posts: seq<Post>, before: Option<int>, limit: int)
    requires limit != 0
    ensures PageFits(Page(posts, before, limit), posts, before, limit)
  {
    var matching := Filter(posts, (p: Post) => Matches(p, before));
    var sorted := SortNewestFirst(matching);
    PrefixFacts(sorted, limit);
    FilterSubMultiset(posts, (p: Post) => Matches(p, before));
    MatchingFacts(posts, before, sorted, LimitTo(sorted, limit));
  }

  /** A prefix of a newest-first sequence is newest first and a
      sub-multiset of it. */
  lemma PrefixFacts(sorted: seq<Post>, limit: int)
    requires NewestFirst(sorted)
    ensures NewestFirst(LimitTo(sorted, limit))
    ensures multiset(LimitTo(sorted, limit)) <= multiset(sorted)
  {
    var page := LimitTo(sorted, limit);
    assert sorted == page + sorted[|page|..];
  }

  lemma MatchingFacts(posts: seq<Post>, before: Option<int>, sorted: seq<Post>, page: seq<Post>)
    requires multiset(sorted) == multiset(Filter(posts, (p: Post) => Matches(p, before)))
    requires multiset(page) <= multiset(sorted)
    ensures forall i :: 0 <= i < |page| ==> Matches(page[i], before)
  {
    forall i | 0 <= i < |page| ensures Matches(page[i], before) {
      assert page[i] in multiset(sorted);
      assert page[i] in Filter(posts, (p: Post) => Matches(p, before));
    }
  }

  lemma {:induction false} FilterSubMultiset<T>(s: seq<T>, p: T -> bool)
    ensures multiset(Filter(s, p)) <= multiset(s)
  {
    if s != [] {
      FilterSubMultiset(s[1..], p);
      assert s == [s[0]] + s[1..];
    }
  }

  /** The page is as full as it can be: it holds |limit| posts or every
      matching post, and no matching post left out is newer than the last
      post of the page. */
  lemma PageComplete(posts: seq<Post>, before: Option<int>, limit: int, q: Post)
    requires limit != 0
    requires q in posts && Matches(q, before)
    ensures var page := PageOf(posts, before, limit).posts;
      q in page || (|page| == Abs(limit) && page[|page| - 1].createdAt >= q.createdAt)
  {
    var matching := Filter(posts, (p: Post) => Matches(p, before));
    var sorted := SortNewestFirst(matching);
    var page := PageOf(posts, before, limit).posts;
    assert q in matching;
    assert q in multiset(sorted);
    var j :| 0 <= j < |sorted| && sorted[j] == q;
    if j < |page| {
      assert page[j] == q;
    } else {
      assert page == sorted[..|page|];
    }
  }

  /** A positive limit that is not filled means the page holds every
      matching post: `hasMore == false` is never premature. */
  lemma NoMoreMeansEverything(posts: seq<Post>, before: Option<int>, limit: int, q: Post)
    requires limit > 0 && !PageOf(posts, before, limit).hasMore
    requires q in posts && Matches(q, before)
    ensures q in PageOf(posts, before, limit).posts
  {
    PageComplete(posts, before, limit, q);
  }

  /** With a negative limit the page is still limited, but `hasMore`
      compares the length with the negative number and is always false. */
  lemma NegativeLimitNeverHasMore(posts: seq<Post>, before: Option<int>, limit: int)
    requires limit < 0
    ensures !PageOf(posts, before, limit).hasMore
  {
  }

  /** Paging on from a page's last post continues strictly below it: every
      post of the next page is older than every post of this one. */
  lemma NextPageIsOlder(posts: seq<Post>, limit: int, cursorPost: Post, before: Option<int>)
    requires limit != 0
    requires var page := PageOf(posts, before, limit); page.posts != [] && cursorPost == page.posts[|page.posts| - 1]
    ensures var page := PageOf(posts, before, limit);
      forall i, j :: 0 <= i < |page.posts| && 0 <= j < |PageOf(posts, Some(cursorPost.createdAt), limit).posts| ==>
        PageOf(posts, Some(cursorPost.createdAt), limit).posts[j].createdAt < page.posts[i].createdAt
  {
    var page := PageOf(posts, before, limit).posts;
    var next := PageOf(posts, Some(cursorPost.createdAt), limit).posts;
    OlderThanLast(page, next, cursorPost, posts, limit);
  }

  /** Every post of `next` is older than the last post of the newest-first
      `page`, hence older than all of `page`. */
  lemma OlderThanLast(page: seq<Post>, next: seq<Post>, cursorPost: Post, posts: seq<Post>, limit: int)
    requires NewestFirst(page) && page != [] && cursorPost == page[|page| - 1]
    requires PageFits(next, posts, Some(cursorPost.createdAt), limit)
    ensures forall i, j :: 0 <= i < |page| && 0 <= j < |next| ==> next[j].createdAt < page[i].createdAt
  {
    forall i, j | 0 <= i < |page| && 0 <= j < |next| ensures next[j].createdAt < page[i].createdAt {
      assert Matches(next[j], Some(cursorPost.createdAt));
      if i < |page| - 1 {
        assert page[i].createdAt >= page[|page| - 1].createdAt;
      }
    }
  }

  class PostCollection {
    var posts: seq<Post>
    var nextId: PostId

    /** Ids are unique and below `nextId`, and every stored post passed the
        schema's content validation. */
    ghost predicate Valid()
      reads this
    {
      && (forall i :: 0 <= i < |posts| ==> posts[i].id < nextId)
      && (forall i, j :: 0 <= i < j < |posts| ==> posts[i].id != posts[j].id)
      && (forall i :: 0 <= i < |posts| ==> 0 < |posts[i].content| && Utf16Length(posts[i].content) <= MaxContentLength)
    }

    constructor ()
      ensures Valid() && posts == [] && nextId == 0
    {
      posts := [];
      nextId := 0;
    }

    /** `createPost`: reject a missing or blank content with 400, otherwise
        build the document from the normalised fields and save it; a save
        that fails validation (content over 2000 UTF-16 code units) is a 500 and
        stores nothing. */
    method CreatePost(body: CreatePostBody, author: UserId, now: int) returns (r: Result<Post, CreateError>)
      requires Valid()
      modifies this
      ensures Valid()
      ensures Normalize(body, author).Failure? ==> r == Failure(ContentRequired)
      ensures r.Failure? ==> posts == old(posts) && nextId == old(nextId)
      ensures r.Success? ==>
                && Normalize(body, author).Success?
                && r.value == NewPost(Normalize(body, author).value, old(nextId), now)
                && posts == old(posts) + [r.value] && nextId == old(nextId) + 1
      ensures Normalize(body, author).Success? ==>
                (r.Success? <==> Utf16Length(Trim(body.content.value)) <= MaxContentLength)
      ensures Normalize(body, author).Success? && r.Failure? ==> r == Failure(InternalError)
    {
      var fields := Normalize(body, author);
      if fields.Failure? {
        return Failure(ContentRequired);
      }
      var newPost := NewPost(fields.value, nextId, now);
      var saved := Validate(newPost);
      if saved.Failure? {
        return Failure(InternalError);
      }
      posts := posts + [newPost];
      nextId := nextId + 1;
      r := Success(newPost);
    }

    /** `getAllPosts`: build the query (public posts, older than the cursor
        post when the cursor names a stored post), then sort, limit and
        report `hasMore` and the last id. */
    method GetAllPosts(limitParam: Option<int>, lastPostId: Option<PostId>) returns (response: PageResponse)
      ensures var cursor := if lastPostId.Some? then Lookup(posts, lastPostId.value) else None;
        response == PageOf(posts, if cursor.Some? then Some(cursor.value.createdAt) else None,
                           EffectiveLimit(limitParam))
    {
      var limit := EffectiveLimit(limitParam);
      var before: Option<int> := None;
      if lastPostId.Some? {
        var lastPost := Lookup(posts, lastPostId.value);
        if lastPost.Some? {
          before := Some(lastPost.value.createdAt);
        }
      }
      response := PageOf(posts, before, limit);
    }
  }
}
