/** The item records of HNClient/Post.swift: `Post` with its `type` discriminator, the
    `StoryPost` and `CommentPost` variants with their defaults, the comment built from a
    search hit, and the two conversions to `PostPreview`.

    A decoded item object is modelled as a record of optional fields; the nested
    `children` list is taken as already decoded (see README). HTML text is kept as the
    raw string. */
module Posts {
  import opened Wrappers
  import opened Strings
  import PostTypes
  import SearchResults

  // ------------------------------------------------------------------- variants

  const DELETED_AUTHOR: string := "__deleted__"

  /** `CommentPost`. `optionalAuthor` and `optionalPostUrl` are the private `_author` and
      `_postUrlString`. */
  datatype CommentPost = CommentPost(
    id: int,
    optionalAuthor: Option<string>,
    storyId: Option<int>,
    createdAt: int,
    optionalPostUrl: Option<string>,
    postType: PostTypes.PostType,
    children: seq<CommentPost>,
    text: Option<string>)
  {
    /** `author`: a deleted comment has no author and shows "__deleted__". */
    function Author(): (r: string)
      ensures optionalAuthor.Some? ==> r == optionalAuthor.value
      ensures optionalAuthor.None? ==> r == DELETED_AUTHOR
    {
      optionalAuthor.GetOr(DELETED_AUTHOR)
    }

    /** `postUrlString`: the stored URL, or the item page. */
    function PostUrlString(): (r: string)
      ensures optionalPostUrl.Some? ==> r == optionalPostUrl.value
      ensures optionalPostUrl.None? ==> HasPrefix(r, PostTypes.HN_ITEM_URL_PREFIX)
    {
      PostTypes.BuildPostUrl(optionalPostUrl, id)
    }
  }

  /** `StoryPost`. */
  datatype StoryPost = StoryPost(
    id: int,
    optionalPostUrl: Option<string>,
    createdAt: int,
    author: string,
    postType: PostTypes.PostType,
    children: seq<CommentPost>,
    text: Option<string>,
    points: int,
    title: string,
    linkedUrlString: Option<string>)
  {
    function PostUrlString(): (r: string)
      ensures optionalPostUrl.Some? ==> r == optionalPostUrl.value
      ensures optionalPostUrl.None? ==> HasPrefix(r, PostTypes.HN_ITEM_URL_PREFIX)
    {
      PostTypes.BuildPostUrl(optionalPostUrl, id)
    }

    /** `previewPoints`. */
    function PreviewPoints(): (r: Option<int>)
      ensures r == Some(points)
    {
      Some(points)
    }
  }

  /** `Post`. */
  datatype Post = Story(story: StoryPost) | Comment(comment: CommentPost)
  {
    /** `Post.id` is the wrapped variant's id. */
    function Id(): (r: int)
      ensures Story? ==> r == story.id
      ensures Comment? ==> r == comment.id
    {
      match this
      case Story(s) => s.id
      case Comment(c) => c.id
    }

    /** The `children` of the `PostVariant`. */
    function Children(): (r: seq<CommentPost>)
      ensures Story? ==> r == story.children
      ensures Comment? ==> r == comment.children
    {
      match this
      case Story(s) => s.children
      case Comment(c) => c.children
    }

    /** The variant with its `children` replaced, as `var p = post; p.children = …` does. */
    function WithChildren(cs: seq<CommentPost>): (r: Post)
      ensures r.Children() == cs && r.Id() == Id() && r.Story? == Story?
      ensures Story? ==> r.story == story.(children := cs)
      ensures Comment? ==> r.comment == comment.(children := cs)
    {
      match this
      case Story(s) => Story(s.(children := cs))
      case Comment(c) => Comment(c.(children := cs))
    }

    function Author(): string {
      match this
      case Story(s) => s.author
      case Comment(c) => c.Author()
    }

    function CreatedAt(): int {
      match this
      case Story(s) => s.createdAt
      case Comment(c) => c.createdAt
    }

    function PostType(): PostTypes.PostType {
      match this
      case Story(s) => s.postType
      case Comment(c) => c.postType
    }

    function Text(): Option<string> {
      match this
      case Story(s) => s.text
      case Comment(c) => c.text
    }

    function PostUrlString(): string {
      match this
      case Story(s) => s.PostUrlString()
      case Comment(c) => c.PostUrlString()
    }
  }

  // ------------------------------------------------------------------- decoding

  /** The keys of an item object read by the decoders; `None` is a missing key. The `text`
      key has two levels: whether the key is there, and then `null` or a string. Neither
      variant lists a key for its private `_postUrlString`, so decoding never sets it. */
  datatype ItemPayload = ItemPayload(
    postType: Option<string>,
    id: Option<int>,
    url: Option<string>,
    createdAtI: Option<int>,
    author: Option<string>,
    title: Option<string>,
    text: Option<Option<string>>,
    points: Option<int>,
    children: Option<seq<CommentPost>>,
    storyId: Option<int>)

  /** The `type` key as the variant decoders read it: required and one of the two raw values. */
  function DecodeTypeKey(p: ItemPayload): (r: Result<PostTypes.PostType, string>)
    ensures r.Success? <==> p.postType == Some("story") || p.postType == Some("comment")
    ensures r.Success? ==> p.postType == Some(PostTypes.PostTypeRawValue(r.value))
    ensures r.Failure? ==> r.error == "type"
  {
    if p.postType.None? then Failure("type")
    else
      match PostTypes.DecodePostType(p.postType.value)
      case Some(t) => Success(t)
      case None => Failure("type")
  }

  /** `StoryPost`'s synthesised decoder, reading the keys in the order of its `CodingKeys`:
      id, url, created_at_i, author, type, title, text, points and children. All are required
      except url, which may be missing. `text` holds an `@HTMLText` wrapper, which is not
      optional itself: the key has to be there, although its value may be `null`. */
  function DecodeStoryPost(p: ItemPayload): (r: Result<StoryPost, string>)
    ensures r.Success? <==> (p.id.Some? && p.createdAtI.Some? && p.author.Some? && DecodeTypeKey(p).Success?
                             && p.title.Some? && p.text.Some? && p.points.Some? && p.children.Some?)
    ensures r.Success? ==> r.value.optionalPostUrl.None? && r.value.linkedUrlString == p.url
                           && r.value.text == p.text.value
    ensures (r.Failure? && p.id.Some? && p.createdAtI.Some? && p.author.Some? && DecodeTypeKey(p).Success?
             && p.title.Some?) ==> (r.error == "text" <==> p.text.None?)
    ensures (p.id.Some? && p.createdAtI.Some? && p.author.Some? && DecodeTypeKey(p).Success?
             && p.title.None?) ==> r == Failure("title")
  {
    if p.id.None? then Failure("id")
    else if p.createdAtI.None? then Failure("created_at_i")
    else if p.author.None? then Failure("author")
    else if DecodeTypeKey(p).Failure? then Failure("type")
    else if p.title.None? then Failure("title")
    else if p.text.None? then Failure("text")
    else if p.points.None? then Failure("points")
    else if p.children.None? then Failure("children")
    else Success(StoryPost(p.id.value, None, p.createdAtI.value, p.author.value, DecodeTypeKey(p).value,
                           p.children.value, p.text.value, p.points.value, p.title.value, p.url))
  }

  /** `CommentPost`'s synthesised decoder, in the order of its `CodingKeys`: id, story_id,
      created_at_i, author, type, text and children. id, created_at_i, type, text and
      children are required; story_id and author may be missing. As in a story, the `text`
      key must be there and may hold `null`. */
  function DecodeCommentPost(p: ItemPayload): (r: Result<CommentPost, string>)
    ensures r.Success? <==> (p.id.Some? && p.createdAtI.Some? && DecodeTypeKey(p).Success? && p.text.Some?
                             && p.children.Some?)
    ensures r.Success? ==> r.value.optionalPostUrl.None? && r.value.optionalAuthor == p.author
                           && r.value.storyId == p.storyId && r.value.text == p.text.value
    ensures (p.id.Some? && p.createdAtI.Some? && DecodeTypeKey(p).Success? && p.text.None?)
            ==> r == Failure("text")
  {
    if p.id.None? then Failure("id")
    else if p.createdAtI.None? then Failure("created_at_i")
    else if DecodeTypeKey(p).Failure? then Failure("type")
    else if p.text.None? then Failure("text")
    else if p.children.None? then Failure("children")
    else Success(CommentPost(p.id.value, p.author, p.storyId, p.createdAtI.value, None,
                             DecodeTypeKey(p).value, p.children.value, p.text.value))
  }

  /** `Post.init(from:)`: the `type` key picks the variant; any other value fails. */
  function DecodePost(p: ItemPayload): (r: Result<Post, string>)
    ensures p.postType != Some("story") && p.postType != Some("comment") ==> r == Failure("type")
    ensures r.Success? && p.postType == Some("story") ==> r.value.Story? && r.value.story.postType == PostTypes.Story
    ensures r.Success? && p.postType == Some("comment") ==> r.value.Comment? && r.value.comment.postType == PostTypes.Comment
    ensures r.Success? ==> p.id == Some(r.value.Id()) && p.children == Some(r.value.Children())
  {
    match DecodeTypeKey(p)
    case Failure(e) => Failure(e)
    case Success(t) =>
      if t == PostTypes.Story then
        match DecodeStoryPost(p)
        case Success(s) => Success(Story(s))
        case Failure(e) => Failure(e)
      else
        match DecodeCommentPost(p)
        case Success(c) => Success(Comment(c))
        case Failure(e) => Failure(e)
  }

  /** A decoded post always links to its item page, and a decoded comment without an
      author shows as deleted. */
  lemma DecodedPostDefaults(p: ItemPayload)
    requires DecodePost(p).Success?
    ensures DecodePost(p).value.PostUrlString() == PostTypes.BuildPostUrl(None, DecodePost(p).value.Id())
    ensures p.author.None? && DecodePost(p).value.Comment? ==> DecodePost(p).value.Author() == DELETED_AUTHOR
  {
  }

  // ------------------------------------------------------------ from a search hit

  /** `CommentPost.init(from:children:)`. */
  function CommentPostFrom(result: SearchResults.CommentSearchResult, children: seq<CommentPost>): (r: CommentPost)
    requires ParseInt(result.objectID).Some?
    ensures r.id == result.Id() && r.Author() == result.author && r.createdAt == result.createdAt
    ensures r.children == children && r.storyId.None? && r.text == result.text
    ensures r.postType == PostTypes.Comment
    ensures r.PostUrlString() == result.PostUrlString()
  {
    CommentPost(result.Id(), Some(result.author), None, result.createdAt, Some(result.PostUrlString()),
                PostTypes.Comment, children, result.text)
  }

  // ------------------------------------------------------------------- previews

  /** `PostPreview` without its `htmlText`. */
  datatype PostPreview = PostPreview(
    id: int,
    author: string,
    postType: PostTypes.PostType,
    createdAt: int,
    title: string,
    linkedUrlString: Option<string>,
    postUrlString: string,
    text: Option<string>,
    commentCount: Option<int>,
    points: Option<int>)
  {
    /** `urlHostPlain`, given the host parsed from `linkedUrlString`. */
    function UrlHostPlain(host: Option<string>): (r: Option<string>)
      requires linkedUrlString.None? ==> host.None?
      ensures linkedUrlString.None? ==> r.None?
      ensures r.None? <==> host.None?
    {
      PostTypes.UrlHostPlain(host)
    }
  }

  /** `PostPreview.init(from: searchResult)`: only a story brings a comment count and points. */
  function PreviewFromSearchResult(result: SearchResults.SearchResult): (r: PostPreview)
    requires ParseInt(result.ObjectID()).Some?
    ensures r.id == result.Id()
    ensures r.postType == result.Type()
    ensures result.Story? ==> r.commentCount == Some(result.story.commentCount)
                              && r.points == Some(result.story.points)
                              && r.author == result.story.author && r.title == result.story.title
                              && r.linkedUrlString == result.story.linkedUrlString
                              && r.text == result.story.storyText
    ensures result.Comment? ==> r.commentCount.None? && r.points.None?
                                && r.author == result.comment.author && r.title == result.comment.Title()
                                && r.linkedUrlString == result.comment.storyUrlString
                                && r.text == result.comment.text
    ensures HasPrefix(r.postUrlString, PostTypes.HN_ITEM_URL_PREFIX)
  {
    match result
    case Story(s) =>
      PostPreview(s.Id(), s.author, PostTypes.Story, s.createdAt, s.title, s.linkedUrlString,
                  s.PostUrlString(), s.Text(), Some(s.commentCount), Some(s.points))
    case Comment(c) =>
      PostPreview(c.Id(), c.author, PostTypes.Comment, c.createdAt, c.Title(), c.LinkedUrlString(),
                  c.PostUrlString(), c.text, None, None)
  }

  /** `PostPreview.init(from: post, title:, urlString:)`: a story keeps its points and falls
      back to its own link; a comment has no points and only the given link. */
  function PreviewFromPost(post: Post, title: string, urlString: Option<string>): (r: PostPreview)
    ensures r.id == post.Id() && r.title == title && r.commentCount.None?
    ensures r.author == post.Author() && r.postType == post.PostType() && r.postUrlString == post.PostUrlString()
    ensures post.Story? ==> r.points == Some(post.story.points)
                            && r.linkedUrlString == (if urlString.Some? then urlString else post.story.linkedUrlString)
    ensures post.Comment? ==> r.points.None? && r.linkedUrlString == urlString
  {
    match post
    case Story(s) =>
      PostPreview(s.id, s.author, s.postType, s.createdAt, title,
                  if urlString.Some? then urlString else s.linkedUrlString,
                  s.PostUrlString(), s.text, None, Some(s.points))
    case Comment(c) =>
      PostPreview(c.id, c.Author(), c.postType, c.createdAt, title, urlString,
                  c.PostUrlString(), c.text, None, None)
  }

  /** The two routes from a comment hit to a preview agree: the preview of the comment built
      from the hit, titled and linked as the hit is, is the preview of the hit itself. */
  lemma PreviewRoutesAgree(result: SearchResults.CommentSearchResult, children: seq<CommentPost>)
    requires ParseInt(result.objectID).Some?
    ensures PreviewFromPost(Comment(CommentPostFrom(result, children)), result.Title(), result.LinkedUrlString())
         == PreviewFromSearchResult(SearchResults.Comment(result))
  {
  }
}
