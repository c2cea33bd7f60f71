/** The search-index side of the comment fan-out, as both HNClient/AlgoliaFetch.swift and
    OctalClone/AlgoliaAPI.swift write it: the query for a story's comments, the `reduce`
    that counts replies per parent, and `SearchType.fromHNSortOrder`. */
module AlgoliaApi {
  import opened Wrappers
  import opened Strings
  import AlgoliaEndpoint
  import SearchResults
  import HackerNewsApi
  import Utilities

  type Comment = SearchResults.CommentSearchResult

  /** The tags asking for every comment of story `storyId`: `comment` and `story_<id>`. */
  function CommentQueryTags(storyId: int): (r: seq<AlgoliaEndpoint.Tag>)
    ensures |r| == 2 && r[0] == AlgoliaEndpoint.Comment
    ensures r[1] == AlgoliaEndpoint.StoryWithId(IntToString(storyId))
  {
    [AlgoliaEndpoint.Comment, AlgoliaEndpoint.StoryWithId(IntToString(storyId))]
  }

  /** The HNClient query: `.init(tagGroups: [.and([.comment, .story_(id:)])])`, with the
      initialiser's defaults (recent, no text query, no numeric filter). */
  function HNClientCommentQuery(storyId: int): (r: AlgoliaEndpoint.SearchParam)
    ensures r.searchType == AlgoliaEndpoint.Recent && AlgoliaEndpoint.SearchPath(r) == "search_by_date"
    ensures r.query.None? && r.numericFilter.None?
    ensures r.tagGroups == Some([AlgoliaEndpoint.And(CommentQueryTags(storyId))])
  {
    AlgoliaEndpoint.SearchParam(AlgoliaEndpoint.Recent, None, Some([AlgoliaEndpoint.And(CommentQueryTags(storyId))]), None)
  }

  /** The OctalClone query: `.init(tags: [.comment, .story_(id:)])`. */
  function OctalCommentQuery(storyId: int): (r: AlgoliaEndpoint.SearchParam)
    ensures r.searchType == AlgoliaEndpoint.Recent && AlgoliaEndpoint.SearchPath(r) == "search_by_date"
    ensures r.query.None? && r.numericFilter.None?
    ensures r.tagGroups == Some([AlgoliaEndpoint.And(CommentQueryTags(storyId))])
  {
    AlgoliaEndpoint.SearchParamWithTags(AlgoliaEndpoint.Recent, None, CommentQueryTags(storyId), None)
  }

  /** The two copies send the same request, ordered by date, whose tag parameter reads
      "comment,story_<id>". */
  lemma CommentQueriesAgree(storyId: int)
    ensures HNClientCommentQuery(storyId) == OctalCommentQuery(storyId)
    ensures AlgoliaEndpoint.SearchPath(OctalCommentQuery(storyId)) == "search_by_date"
    ensures AlgoliaEndpoint.BuildTagQueryParam(OctalCommentQuery(storyId).tagGroups)
            == "comment,story_" + IntToString(storyId)
  {
    var tags := CommentQueryTags(storyId);
    var ds := AlgoliaEndpoint.TagDescriptions(tags);
    AlgoliaEndpoint.BuildTagQueryParamSingle(AlgoliaEndpoint.And(tags));
    assert ds == ["comment", "story_" + IntToString(storyId)];
    assert Join(ds, ",") == "comment" + "," + ("story_" + IntToString(storyId)) by {
      assert ds[1..] == ["story_" + IntToString(storyId)];
    }
  }

  // ------------------------------------------------------------ child counting

  /** One step of the `reduce`: a comment with a parent other than the story adds one to
      that parent's count. */
  function Step(d: map<int, nat>, c: Comment, storyId: int): (r: map<int, nat>)
    ensures c.parentId.None? || c.parentId == Some(storyId) ==> r == d
    ensures c.parentId.Some? && c.parentId != Some(storyId) ==>
              var p := c.parentId.value;
              r.Keys == d.Keys + {p} && r[p] == (if p in d then d[p] else 0) + 1
              && forall q :: q in d && q != p ==> r[q] == d[q]
  {
    match c.parentId
    case Some(p) => if p != storyId then d[p := (if p in d then d[p] else 0) + 1] else d
    case None => d
  }

  /** `reduce([Int: Int]()) { … }` over the comments, from the first to the last. */
  function ChildCounts(cs: seq<Comment>, storyId: int): (r: map<int, nat>)
    ensures storyId !in r
    ensures forall q :: q in r ==> r[q] >= 1
    decreases |cs|
  {
    if |cs| == 0 then map[]
    else Step(ChildCounts(cs[..|cs| - 1], storyId), cs[|cs| - 1], storyId)
  }

  /** The counts of the search hits: the reduce over the comment hits only, which is
      `onlyComments()` in one copy and the equivalent `compactMap` in the other. */
  function ChildCountsOfHits(hits: seq<SearchResults.SearchResult>, storyId: int): (r: map<int, nat>)
    ensures forall q :: q in r <==> q != storyId && |Utilities.ChildrenOf(SearchResults.OnlyComments(hits), q)| > 0
    ensures forall q :: q in r ==> r[q] == |Utilities.ChildrenOf(SearchResults.OnlyComments(hits), q)|
  {
    var cs := SearchResults.OnlyComments(hits);
    assert forall q :: (q in ChildCounts(cs, storyId) <==> q != storyId && |Utilities.ChildrenOf(cs, q)| > 0)
                       && (q in ChildCounts(cs, storyId) ==> ChildCounts(cs, storyId)[q] == |Utilities.ChildrenOf(cs, q)|) by {
      forall q ensures (q in ChildCounts(cs, storyId) <==> q != storyId && |Utilities.ChildrenOf(cs, q)| > 0)
                       && (q in ChildCounts(cs, storyId) ==> ChildCounts(cs, storyId)[q] == |Utilities.ChildrenOf(cs, q)|) {
        ChildCountsCount(cs, storyId, q);
      }
    }
    ChildCounts(cs, storyId)
  }

  /** The count of a parent is its number of replies among the comments, and the story
      itself (whose replies are the top-level comments) is never a key. */
  lemma {:induction false} ChildCountsCount(cs: seq<Comment>, storyId: int, p: int)
    ensures p in ChildCounts(cs, storyId) <==> p != storyId && |Utilities.ChildrenOf(cs, p)| > 0
    ensures p in ChildCounts(cs, storyId) ==> ChildCounts(cs, storyId)[p] == |Utilities.ChildrenOf(cs, p)|
    decreases |cs|
  {
    if |cs| > 0 {
      var init, last := cs[..|cs| - 1], cs[|cs| - 1];
      assert cs == init + [last];
      ChildCountsCount(init, storyId, p);
      Utilities.ChildrenOfAppend(init, [last], p);
      assert [last][1..] == [];
      if p == storyId {
        assert p !in ChildCounts(cs, storyId);
      }
    }
  }

  /** The fan-out asks for exactly the parents, other than the story, that have at least
      two replies among the comment hits. */
  lemma FanOutSelectsBranchingParents(hits: seq<SearchResults.SearchResult>, storyId: int, k: int)
    ensures k in HackerNewsApi.FanOutParentIds(ChildCountsOfHits(hits, storyId))
            <==> k != storyId && |Utilities.ChildrenOf(SearchResults.OnlyComments(hits), k)| > 1
  {
    ChildCountsCount(SearchResults.OnlyComments(hits), storyId, k);
  }

  /** Seen from the tree built from the same comments: a comment's item is fetched exactly
      when its node has two or more children, since only those have children to reorder. */
  lemma FanOutMatchesTree(cs: seq<Comment>, storyId: int, k: int, rank: int -> nat)
    requires Utilities.RankedBy(cs, rank)
    ensures k in HackerNewsApi.FanOutParentIds(ChildCounts(cs, storyId))
            <==> k != storyId && |Utilities.BuildCommentTree(k, cs, rank)| > 1
  {
    ChildCountsCount(cs, storyId, k);
  }

  // --------------------------------------------------------------- sort orders

  /** `SearchType.fromHNSortOrder`: the list's own order is fetched by date. */
  function FromHNSortOrder(order: HackerNewsApi.StoryOrder): (r: AlgoliaEndpoint.SearchType)
    ensures order.Original? ==> r == AlgoliaEndpoint.Recent
    ensures order.Search? ==> order == HackerNewsApi.Search(r)
  {
    match order
    case Original => AlgoliaEndpoint.Recent
    case Search(t) => t
  }

  /** Every search type comes from its own order, and the original order is fetched like
      a by-date search. */
  lemma FromHNSortOrderOnto(t: AlgoliaEndpoint.SearchType)
    ensures FromHNSortOrder(HackerNewsApi.Search(t)) == t
    ensures FromHNSortOrder(HackerNewsApi.Original) == FromHNSortOrder(HackerNewsApi.Search(AlgoliaEndpoint.Recent))
  {
  }
}
