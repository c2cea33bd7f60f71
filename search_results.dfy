/** The search-index hit records of OctalClone/SearchResults.swift: the collection with its
    defaulted `hits`, the story/comment discriminator applied while decoding a hit, the
    two variants with their computed id, title and URL defaults, and the
    `onlyStories`/`onlyComments` filters.

    A decoded JSON object is modelled as a record of optional fields, one per key the
    decoders read; a missing required key makes decoding fail with that key's name. */
module SearchResults {
  import opened Wrappers
  import opened Strings
  import PostTypes

  // -------------------------------------------------------------------- variants

  /** `StorySearchResult`. */
  datatype StorySearchResult = StorySearchResult(
    objectID: string,
    title: string,
    author: string,
    points: int,
    createdAt: int,
    linkedUrlString: Option<string>,
    relevancyScore: Option<int>,
    commentCount: int,
    storyText: Option<string>)
  {
    /** The protocol extension's `id`: `Int(objectID)!`, which traps on a non-numeric id. */
    function Id(): int
      requires ParseInt(objectID).Some?
    {
      ParseInt(objectID).value
    }

    /** `text` is the story text. */
    function Text(): Option<string> {
      storyText
    }

    /** The search result never carries its own item URL: it is always the fallback. */
    function PostUrlString(): (r: string)
      requires ParseInt(objectID).Some?
      ensures HasPrefix(r, PostTypes.HN_ITEM_URL_PREFIX)
      ensures ParseInt(r[|PostTypes.HN_ITEM_URL_PREFIX|..]) == Some(Id())
    {
      PostTypes.FallbackUrlNamesItem(Id());
      PostTypes.BuildPostUrl(None, Id())
    }
  }

  const NO_TITLE: string := "N/A"

  /** `CommentSearchResult`; `text` is the `comment_text` key (its HTML conversion is not
      modelled). */
  datatype CommentSearchResult = CommentSearchResult(
    objectID: string,
    author: string,
    storyText: Option<string>,
    relevancyScore: Option<int>,
    createdAt: int,
    parentId: Option<int>,
    storyTitle: Option<string>,
    storyUrlString: Option<string>,
    text: Option<string>)
  {
    function Id(): int
      requires ParseInt(objectID).Some?
    {
      ParseInt(objectID).value
    }

    /** `title`: the story's title, or "N/A" when the hit has none. */
    function Title(): (r: string)
      ensures storyTitle.Some? ==> r == storyTitle.value
      ensures storyTitle.None? ==> r == NO_TITLE
    {
      storyTitle.GetOr(NO_TITLE)
    }

    /** `linkedUrlString` is the story's URL. */
    function LinkedUrlString(): Option<string> {
      storyUrlString
    }

    function PostUrlString(): (r: string)
      requires ParseInt(objectID).Some?
      ensures HasPrefix(r, PostTypes.HN_ITEM_URL_PREFIX)
      ensures ParseInt(r[|PostTypes.HN_ITEM_URL_PREFIX|..]) == Some(Id())
    {
      PostTypes.FallbackUrlNamesItem(Id());
      PostTypes.BuildPostUrl(None, Id())
    }
  }

  /** `SearchResult`. */
  datatype SearchResult = Story(story: StorySearchResult) | Comment(comment: CommentSearchResult)
  {
    /** The wrapped variant's `objectID`. */
    function ObjectID(): string {
      match this
      case Story(s) => s.objectID
      case Comment(c) => c.objectID
    }

    /** `SearchResult.id` is the wrapped variant's id. */
    function Id(): (r: int)
      requires ParseInt(ObjectID()).Some?
      ensures Story? ==> r == story.Id()
      ensures Comment? ==> r == comment.Id()
    {
      match this
      case Story(s) => s.Id()
      case Comment(c) => c.Id()
    }

    /** `SearchResult.type`. */
    function Type(): (r: PostTypes.PostType)
      ensures r == PostTypes.Story <==> Story?
      ensures r == PostTypes.Comment <==> Comment?
    {
      match this
      case Story(_) => PostTypes.Story
      case Comment(_) => PostTypes.Comment
    }
  }

  // ------------------------------------------------------------------ collection

  /** `SearchResultCollection`; `_hits` may be missing from the payload. */
  datatype SearchResultCollection = SearchResultCollection(
    optionalHits: Option<seq<SearchResult>>,
    page: int,
    nbHits: int,
    nbPages: int,
    hitsPerPage: int)
  {
    /** `hits`: no hits in the payload reads as an empty list. */
    function Hits(): (r: seq<SearchResult>)
      ensures optionalHits.None? ==> r == []
      ensures optionalHits.Some? ==> r == optionalHits.value
    {
      optionalHits.GetOr([])
    }
  }

  // --------------------------------------------------------------------- filters

  /** `onlyStories()`: the story variants, in order. */
  function OnlyStories(results: seq<SearchResult>): (r: seq<StorySearchResult>)
    ensures |r| <= |results|
    ensures forall s :: s in r <==> Story(s) in results
  {
    if |results| == 0 then []
    else
      var rest := OnlyStories(results[1..]);
      assert results == [results[0]] + results[1..];
      match results[0]
      case Story(s) => [s] + rest
      case Comment(_) => rest
  }

  /** `onlyComments()`: the comment variants, in order. */
  function OnlyComments(results: seq<SearchResult>): (r: seq<CommentSearchResult>)
    ensures |r| <= |results|
    ensures forall c :: c in r <==> Comment(c) in results
  {
    if |results| == 0 then []
    else
      var rest := OnlyComments(results[1..]);
      assert results == [results[0]] + results[1..];
      match results[0]
      case Comment(c) => [c] + rest
      case Story(_) => rest
  }

  /** Both filters keep the relative order: they distribute over concatenation. */
  lemma {:induction false} OnlyDistributes(a: seq<SearchResult>, b: seq<SearchResult>)
    ensures OnlyStories(a + b) == OnlyStories(a) + OnlyStories(b)
    ensures OnlyComments(a + b) == OnlyComments(a) + OnlyComments(b)
  {
    if |a| > 0 {
      assert (a + b)[0] == a[0];
      assert (a + b)[1..] == a[1..] + b;
      OnlyDistributes(a[1..], b);
    } else {
      assert a + b == b;
    }
  }

  /** Between them the two filters account for every hit exactly once. */
  lemma {:induction false} OnlyPartition(results: seq<SearchResult>)
    ensures |OnlyStories(results)| + |OnlyComments(results)| == |results|
  {
    if |results| > 0 {
      OnlyPartition(results[1..]);
    }
  }

  // -------------------------------------------------------------------- decoding

  /** The keys of a hit object that the two variant decoders and the discriminator read;
      `None` is a missing key. `comment_text` has two levels: whether the key is there, and
      then `null` or a string. */
  datatype HitPayload = HitPayload(
    tags: Option<seq<string>>,
    objectID: Option<string>,
    title: Option<string>,
    author: Option<string>,
    points: Option<int>,
    createdAtI: Option<int>,
    url: Option<string>,
    relevancyScore: Option<int>,
    numComments: Option<int>,
    storyTextKey: Option<string>,
    parentIdKey: Option<int>,
    storyTitleKey: Option<string>,
    storyUrl: Option<string>,
    commentText: Option<Option<string>>)

  /** The story decoder: `objectID`, `title`, `author`, `points`, `created_at_i` and
      `num_comments` are required; the rest are optional. */
  function DecodeStory(p: HitPayload): (r: Result<StorySearchResult, string>)
    ensures r.Success? <==> (p.objectID.Some? && p.title.Some? && p.author.Some? && p.points.Some?
                             && p.createdAtI.Some? && p.numComments.Some?)
    ensures r.Success? ==> r.value.objectID == p.objectID.value && r.value.linkedUrlString == p.url
                           && r.value.commentCount == p.numComments.value
  {
    if p.objectID.None? then Failure("objectID")
    else if p.title.None? then Failure("title")
    else if p.author.None? then Failure("author")
    else if p.points.None? then Failure("points")
    else if p.createdAtI.None? then Failure("created_at_i")
    else if p.numComments.None? then Failure("num_comments")
    else Success(StorySearchResult(p.objectID.value, p.title.value, p.author.value, p.points.value,
                                   p.createdAtI.value, p.url, p.relevancyScore, p.numComments.value,
                                   p.storyTextKey))
  }

  /** The comment decoder, in the order of its `CodingKeys`: `objectID`, `author`, `created_at_i` and
      `comment_text` are required. `comment_text` holds an `@HTMLText` wrapper, so the key
      has to be there, although its value may be `null`. */
  function DecodeComment(p: HitPayload): (r: Result<CommentSearchResult, string>)
    ensures r.Success? <==> p.objectID.Some? && p.author.Some? && p.createdAtI.Some? && p.commentText.Some?
    ensures r.Success? ==> r.value.objectID == p.objectID.value && r.value.author == p.author.value
                           && r.value.text == p.commentText.value
    ensures r.Failure? && p.objectID.Some? && p.author.Some? && p.createdAtI.Some? ==> r == Failure("comment_text")
  {
    if p.objectID.None? then Failure("objectID")
    else if p.author.None? then Failure("author")
    else if p.createdAtI.None? then Failure("created_at_i")
    else if p.commentText.None? then Failure("comment_text")
    else Success(CommentSearchResult(p.objectID.value, p.author.value, p.storyTextKey, p.relevancyScore,
                                     p.createdAtI.value, p.parentIdKey, p.storyTitleKey, p.storyUrl,
                                     p.commentText.value))
  }

  const STORY_TAG: string := "story"
  const COMMENT_TAG: string := "comment"

  /** `SearchResult.init(from:)`: a story exactly when `_tags` lists "story", otherwise a
      comment; the only other failures are a missing `_tags` key and the variant's own. */
  function DecodeSearchResult(p: HitPayload): (r: Result<SearchResult, string>)
    ensures p.tags.None? ==> r == Failure("_tags")
    ensures p.tags.Some? && STORY_TAG in p.tags.value ==>
              match DecodeStory(p) case Success(s) => r == Success(Story(s)) case Failure(e) => r == Failure(e)
    ensures p.tags.Some? && STORY_TAG !in p.tags.value ==>
              match DecodeComment(p) case Success(c) => r == Success(Comment(c)) case Failure(e) => r == Failure(e)
  {
    match p.tags
    case None => Failure("_tags")
    case Some(tags) =>
      var resultType := if STORY_TAG in tags then STORY_TAG else COMMENT_TAG;
      if resultType == STORY_TAG then
        match DecodeStory(p)
        case Success(s) => Success(Story(s))
        case Failure(e) => Failure(e)
      else if resultType == COMMENT_TAG then
        match DecodeComment(p)
        case Success(c) => Success(Comment(c))
        case Failure(e) => Failure(e)
      else
        assert false;
        Failure(resultType)
  }

  /** The object the search index sends for a comment hit on story `storyId`, tagged
      "comment", "author_<name>" and "story_<id>". */
  function CommentPayload(c: CommentSearchResult, storyId: int): HitPayload {
    HitPayload(Some([COMMENT_TAG, "author_" + c.author, "story_" + IntToString(storyId)]),
               Some(c.objectID), None, Some(c.author), None, Some(c.createdAt), None,
               c.relevancyScore, None, c.storyText, c.parentId, c.storyTitle, c.storyUrlString, Some(c.text))
  }

  /** The object the search index sends for a story hit, tagged "story" and
      "author_<name>". */
  function StoryPayload(s: StorySearchResult): HitPayload {
    HitPayload(Some([STORY_TAG, "author_" + s.author]),
               Some(s.objectID), Some(s.title), Some(s.author), Some(s.points), Some(s.createdAt),
               s.linkedUrlString, s.relevancyScore, Some(s.commentCount), s.storyText,
               None, None, None, None)
  }

  /** A comment hit decodes as the comment it describes although its tags mention its
      story ("story_<id>" is not the tag "story"), and a story hit as its story. */
  lemma DecodeHitPayloads(c: CommentSearchResult, storyId: int, s: StorySearchResult)
    ensures DecodeSearchResult(CommentPayload(c, storyId)) == Success(Comment(c))
    ensures DecodeSearchResult(StoryPayload(s)) == Success(Story(s))
  {
    var tags := CommentPayload(c, storyId).tags.value;
    assert ("author_" + c.author)[0] == 'a';
    assert |"story_" + IntToString(storyId)| > |STORY_TAG|;
    assert STORY_TAG !in tags;
    assert STORY_TAG in StoryPayload(s).tags.value;
  }
}
