/** The Post record as the schema declares it: its fields, the defaults a
    new document takes, the content constraints checked on save, and the
    derived `likeCount` sent with every serialised post. */
module PostModel {
  import opened Wrappers
  import opened Text
  import opened ChatTypes

  type PostId = nat

  /** The schema's `maxlength` for `content`. */
  const MaxContentLength: nat := 2000

  /** A text post's background: a CSS gradient and a text colour. */
  datatype TextBackground = TextBackground(color: string, textColor: string)

  datatype Post = Post(
    id: PostId,
    content: string,
    author: UserId,
    image: Option<string>,
    images: seq<string>,
    textBackground: Option<TextBackground>,
    tags: seq<string>,
    game: Option<string>,
    likes: seq<UserId>,
    isPublic: bool,
    createdAt: int)

  /** The fields a new document is built from; an absent field takes the
      schema default. */
  datatype PostFields = PostFields(
    content: string,
    author: UserId,
    image: Option<string>,
    images: Option<seq<string>>,
    textBackground: Option<TextBackground>,
    tags: Option<seq<string>>,
    game: Option<string>,
    isPublic: Option<bool>)

  /** `new Post(fields)` stamped with an id and a creation time: defaults
      filled in (no image, no images, no tags, no likes, public) and the
      schema's `trim` setters applied to tags and game. */
  function NewPost(f: PostFields, id: PostId, now: int): (p: Post)
    ensures p.content == f.content && p.author == f.author && p.id == id && p.createdAt == now
    ensures p.image == f.image && p.textBackground == f.textBackground
    ensures p.images == (if f.images.Some? then f.images.value else [])
    ensures |p.tags| == (if f.tags.Some? then |f.tags.value| else 0)
    ensures forall i :: 0 <= i < |p.tags| ==> p.tags[i] == Trim(f.tags.value[i])
    ensures p.game == (if f.game.Some? then Some(Trim(f.game.value)) else None)
    ensures p.likes == []
    ensures p.isPublic == (f.isPublic != Some(false))
  {
    Post(id, f.content, f.author, f.image, f.images.GetOr([]), f.textBackground,
         TrimAll(f.tags.GetOr([])), if f.game.Some? then Some(Trim(f.game.value)) else None,
         [], f.isPublic.GetOr(true), now)
  }

  /** Why saving a document fails. */
  datatype ValidationError = ContentMissing | ContentTooLong

  /** The validation `save` runs: content is required (a non-empty string)
      and at most 2000 long, counted as `length` counts, in UTF-16 code
      units. */
  function Validate(p: Post): (r: Result<Post, ValidationError>)
    ensures r.Success? <==> 0 < |p.content| && Utf16Length(p.content) <= MaxContentLength
    ensures r.Success? ==> r.value == p
    ensures r == Failure(ContentMissing) <==> p.content == []
  {
    if p.content == [] then Failure(ContentMissing)
    else if Utf16Length(p.content) > MaxContentLength then Failure(ContentTooLong)
    else Success(p)
  }

  /** A post as serialised to JSON, with the `likeCount` virtual. */
  datatype PostJson = PostJson(post: Post, likeCount: nat)

  /** `toJSON` with virtuals: the post plus its like count. */
  function ToJson(p: Post): (j: PostJson)
    ensures j.post == p
    ensures j.likeCount == |j.post.likes|
  {
    PostJson(p, |p.likes|)
  }
}
