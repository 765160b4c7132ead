/** The create-post form: its fields, the handlers that edit them, and the
    submit handler that builds the request body and hands it to the feed
    store. */
module CreatePostModal {
  import opened Wrappers
  import opened Text
  import opened ChatTypes
  import opened PostModel
  import opened PostController
  import opened PostStore

  /** A picked image file, known here only by a handle. */
  type ImageFile = string

  /** The two post kinds the form switches between. */
  datatype PostType = TextPost | MediaPost

  /** The background a new text post starts with (the "Blue" template). */
  const DefaultBackground := TextBackground("linear-gradient(135deg, #667eea 0%, #764ba2 100%)", "#ffffff")

  /** `s` without the element at `index` (`s.filter((_, i) => i !== index)`);
      an index outside `s` removes nothing. */
  function WithoutIndex<T>(s: seq<T>, index: int): (r: seq<T>)
    ensures 0 <= index < |s| ==> r == s[..index] + s[index + 1..]
    ensures !(0 <= index < |s|) ==> r == s
  {
    if s == [] then []
    else
      var rest := WithoutIndex(s[1..], index - 1);
      if index == 0 then rest else [s[0]] + rest
  }

  /** The position in the original sequence of position `k` after removing
      `index` from a sequence of length `n`. */
  function Origin(n: nat, index: int, k: nat): nat {
    if 0 <= index < n && k >= index then k + 1 else k
  }

  /** Removing the same index from two sequences of equal length keeps them
      of equal length, and what sits at position `k` of each came from the
      same original position: files and previews stay paired. */
  lemma WithoutIndexKeepsPairing<A, B>(a: seq<A>, b: seq<B>, index: int)
    requires |a| == |b|
    ensures |WithoutIndex(a, index)| == |WithoutIndex(b, index)|
    ensures forall k :: 0 <= k < |WithoutIndex(a, index)| ==>
              Origin(|a|, index, k) < |a|
              && WithoutIndex(a, index)[k] == a[Origin(|a|, index, k)]
              && WithoutIndex(b, index)[k] == b[Origin(|b|, index, k)]
  {
    forall k | 0 <= k < |WithoutIndex(a, index)|
      ensures Origin(|a|, index, k) < |a|
      ensures WithoutIndex(a, index)[k] == a[Origin(|a|, index, k)]
      ensures WithoutIndex(b, index)[k] == b[Origin(|b|, index, k)]
    {
      WithoutIndexAt(a, index, k);
      WithoutIndexAt(b, index, k);
    }
  }

  /** Position `k` after the removal holds the element from `Origin`. */
  lemma WithoutIndexAt<T>(s: seq<T>, index: int, k: nat)
    requires k < |WithoutIndex(s, index)|
    ensures Origin(|s|, index, k) < |s|
    ensures WithoutIndex(s, index)[k] == s[Origin(|s|, index, k)]
  {
    if 0 <= index < |s| && k >= index {
      assert (s[..index] + s[index + 1..])[k] == s[index + 1..][k - index];
    }
  }

  /** The request body `handleSubmit` sends: trimmed content, the raw tag
      and game text, the visibility flag, the background only for a text
      post and the previews only for a media post. */
  function BuildPayload(content: string, tags: string, game: string, isPublic: bool, postType: PostType,
                        textBackground: TextBackground, imagePreviews: seq<string>): (body: CreatePostBody)
    ensures body.content == Some(Trim(content))
    ensures body.textBackground.Some? <==> postType == TextPost
    ensures body.textBackground.Some? ==> body.textBackground.value == textBackground
    ensures body.images == Some(if postType == MediaPost then imagePreviews else [])
    ensures body.tags == Some(tags) && body.game == Some(game) && body.isPublic == Some(isPublic)
  {
    CreatePostBody(Some(Trim(content)), Some(tags), Some(game), Some(isPublic),
                   if postType == TextPost then Some(textBackground) else None,
                   Some(if postType == MediaPost then imagePreviews else []))
  }

  /** A payload built from non-blank content passes the server's checks,
      and the server stores the same trimmed content and the form's own
      visibility and images. */
  lemma PayloadAccepted(content: string, tags: string, game: string, isPublic: bool, postType: PostType,
                        textBackground: TextBackground, imagePreviews: seq<string>, author: UserId)
    requires Trim(content) != []
    ensures var f := Normalize(BuildPayload(content, tags, game, isPublic, postType, textBackground, imagePreviews), author);
      && f.Success?
      && f.value.content == Trim(content)
      && f.value.isPublic == Some(isPublic)
      && f.value.images == Some(if postType == MediaPost then imagePreviews else [])
  {
    TrimIdempotent(content);
  }

  class PostForm {
    var content: string
    var tags: string
    var game: string
    var isPublic: bool
    var images: seq<ImageFile>
    var imagePreviews: seq<string>
    var postType: PostType
    var textBackground: TextBackground

    /** Every field at its initial value. */
    ghost predicate Initial()
      reads this
    {
      && content == "" && tags == "" && game == "" && isPublic
      && images == [] && imagePreviews == [] && postType == TextPost
      && textBackground == DefaultBackground
    }

    constructor ()
      ensures Initial()
    {
      content, tags, game, isPublic := "", "", "", true;
      images, imagePreviews := [], [];
      postType, textBackground := TextPost, DefaultBackground;
    }

    /** `handleRemoveImage(index)`: drop that index from both the files and
        the previews. */
    method RemoveImage(index: int)
      modifies this`images, this`imagePreviews
      ensures images == WithoutIndex(old(images), index)
      ensures imagePreviews == WithoutIndex(old(imagePreviews), index)
    {
      images := WithoutIndex(images, index);
      imagePreviews := WithoutIndex(imagePreviews, index);
    }

    /** `handleTextBackgroundSelect`: use the chosen template's colours. */
    method SelectTextBackground(background: TextBackground)
      modifies this`textBackground
      ensures textBackground == background
    {
      textBackground := background;
    }

    /** `handlePostTypeChange`: switching to a text post discards the picked
        images; switching to a media post keeps them. */
    method ChangePostType(newType: PostType)
      modifies this`postType, this`images, this`imagePreviews
      ensures postType == newType
      ensures newType == TextPost ==> images == [] && imagePreviews == []
      ensures newType == MediaPost ==> images == old(images) && imagePreviews == old(imagePreviews)
    {
      postType := newType;
      if newType == TextPost {
        images, imagePreviews := [], [];
      }
    }

    /** `handleSubmit`: blank content is refused before any request; else
        the payload goes to the feed store, and on success the text fields
        and visibility are reset and the form asks to be closed. Images,
        post type and background are kept. */
    method Submit(feed: PostFeed, reply: Reply<Post>) returns (payload: Option<CreatePostBody>, closeRequested: bool)
      modifies this`content, this`tags, this`game, this`isPublic, feed
      ensures AllWhitespace(old(content)) ==>
                payload.None? && !closeRequested && unchanged(feed)
                && content == old(content) && tags == old(tags) && game == old(game) && isPublic == old(isPublic)
      ensures !AllWhitespace(old(content)) ==>
                && payload == Some(BuildPayload(old(content), old(tags), old(game), old(isPublic), postType,
                                               textBackground, imagePreviews))
                && !feed.loading
                && feed.hasMore == old(feed.hasMore) && feed.lastPostId == old(feed.lastPostId)
                && (reply.Ok? ==> feed.posts == [reply.data] + old(feed.posts) && feed.error == None)
                && (reply.Err? ==> feed.posts == old(feed.posts)
                                   && feed.error == Some(ErrorText(reply.message, CreateFailedMessage)))
                && closeRequested == reply.Ok?
                && (reply.Ok? ==> content == "" && tags == "" && game == "" && isPublic)
                && (reply.Err? ==> content == old(content) && tags == old(tags) && game == old(game)
                                   && isPublic == old(isPublic))
    {
      TrimEmptyIff(content);
      if Trim(content) == [] {
        return None, false;
      }
      var body := BuildPayload(content, tags, game, isPublic, postType, textBackground, imagePreviews);
      payload := Some(body);
      var outcome := feed.CreatePost(body, reply);
      closeRequested := outcome.Created?;
      if outcome.Created? {
        content, tags, game, isPublic := "", "", "", true;
      }
    }

    /** `handleClose`: every field back to its initial value, then the form
        asks to be closed. */
    method Close() returns (closeRequested: bool)
      modifies this
      ensures Initial() && closeRequested
    {
      content, tags, game, isPublic := "", "", "", true;
      images, imagePreviews := [], [];
      postType, textBackground := TextPost, DefaultBackground;
      closeRequested := true;
    }
  }
}
