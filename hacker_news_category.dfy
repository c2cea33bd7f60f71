/** The category list view model of OctalClone/HackerNewsCategory.swift. `fetch` loads a
    category's story ids, searches the index for those stories in the chosen order, and
    stores the story hits in a table keyed by category and order, with a fetch status
    beside it.

    The two network calls are inputs: the outcome of the id request and the outcome of
    the search that the returned query describes. */
module HackerNewsCategories {
  import opened Wrappers
  import opened Strings
  import AlgoliaEndpoint
  import SearchResults
  import HackerNewsApi
  import AlgoliaApi
  import Utilities

  type Story = SearchResults.StorySearchResult
  type ResultsTable = map<HackerNewsApi.StoryCategory, map<HackerNewsApi.StoryOrder, seq<Story>>>

  /** The `story_<id>` tag of each story id. */
  function StoryTags(ids: seq<int>): (r: seq<AlgoliaEndpoint.Tag>)
    ensures |r| == |ids|
    ensures forall k :: 0 <= k < |ids| ==> r[k] == AlgoliaEndpoint.StoryWithId(IntToString(ids[k]))
  {
    seq(|ids|, k requires 0 <= k < |ids| => AlgoliaEndpoint.StoryWithId(IntToString(ids[k])))
  }

  /** The search `fetch` issues: stories that are one of the listed ids, in the search
      type the order maps to. */
  function CategoryQuery(order: HackerNewsApi.StoryOrder, ids: seq<int>): (r: AlgoliaEndpoint.SearchParam)
    ensures r.searchType == AlgoliaApi.FromHNSortOrder(order) && r.query.None? && r.numericFilter.None?
    ensures r.tagGroups.Some? && |r.tagGroups.value| == 2 && r.tagGroups.value[1].tags == StoryTags(ids)
  {
    AlgoliaEndpoint.SearchParam(AlgoliaApi.FromHNSortOrder(order), None,
                                Some([AlgoliaEndpoint.And([AlgoliaEndpoint.Story]), AlgoliaEndpoint.Or(StoryTags(ids))]),
                                None)
  }

  /** The query is ranked by relevance only for the best order. */
  lemma CategoryQueryPath(order: HackerNewsApi.StoryOrder, ids: seq<int>)
    ensures AlgoliaEndpoint.SearchPath(CategoryQuery(order, ids)) == "search"
            <==> order == HackerNewsApi.Search(AlgoliaEndpoint.Best)
  {
  }

  /** The rendering of the two tag groups: "story", then the OR group when it has tags. */
  lemma TwoGroupsRendering(orTags: seq<AlgoliaEndpoint.Tag>)
    ensures var groups := [AlgoliaEndpoint.And([AlgoliaEndpoint.Story]), AlgoliaEndpoint.Or(orTags)];
            AlgoliaEndpoint.RenderTagGroups(groups)
            == ["story"] + (if orTags == [] then [] else ["(" + Join(AlgoliaEndpoint.TagDescriptions(orTags), ",") + ")"])
  {
    var groups := [AlgoliaEndpoint.And([AlgoliaEndpoint.Story]), AlgoliaEndpoint.Or(orTags)];
    assert groups[1..] == [AlgoliaEndpoint.Or(orTags)] && groups[1..][1..] == [];
    assert AlgoliaEndpoint.TagDescriptions([AlgoliaEndpoint.Story]) == ["story"];
  }

  /** The query's tags read "story,(story_<id>,…)"; with no ids the OR group disappears,
      so the query then asks for every story. */
  lemma CategoryQueryTagParam(order: HackerNewsApi.StoryOrder, ids: seq<int>)
    ensures ids == [] ==> AlgoliaEndpoint.BuildTagQueryParam(CategoryQuery(order, ids).tagGroups) == "story"
    ensures ids != [] ==>
              AlgoliaEndpoint.BuildTagQueryParam(CategoryQuery(order, ids).tagGroups)
              == "story,(" + Join(AlgoliaEndpoint.TagDescriptions(StoryTags(ids)), ",") + ")"
  {
    var tags := StoryTags(ids);
    var groups := [AlgoliaEndpoint.And([AlgoliaEndpoint.Story]), AlgoliaEndpoint.Or(tags)];
    assert CategoryQuery(order, ids).tagGroups == Some(groups);
    TwoGroupsRendering(tags);
    if ids != [] {
      JoinStoryWith(Join(AlgoliaEndpoint.TagDescriptions(tags), ","));
    }
  }

  lemma JoinStoryWith(orTags: string)
    ensures Join(["story", "(" + orTags + ")"], ",") == "story,(" + orTags + ")"
  {
    var orString := "(" + orTags + ")";
    assert ["story", orString][1..] == [orString];
    assert Join(["story", orString], ",") == "story" + "," + orString;
    ConcatAssociates4("story", ",", "(", orTags, ")");
  }

  lemma ConcatAssociates4(a: string, b: string, c: string, d: string, e: string)
    ensures a + b + (c + d + e) == a + b + c + d + e
  {
  }

  /** A story's `id` for sorting, total so that it can be passed as a key; it is the
      story's `Id()` whenever the `objectID` is numeric. */
  function StoryKey(s: Story): (r: int)
    ensures ParseInt(s.objectID).Some? ==> r == s.Id()
  {
    ParseInt(s.objectID).GetOr(0)
  }

  /** Every story `objectID` is numeric, as `sortToMatch`'s use of `id` needs. */
  predicate AllNumericStories(stories: seq<Story>) {
    forall s :: s in stories ==> ParseInt(s.objectID).Some?
  }

  /** The table after a fetch whose two requests succeeded: the category's entry gets the
      stories under the order; the original order stores them sorted to the id list and
      also stores them, as found, under the recent search. */
  function StoreResults(table: ResultsTable, category: HackerNewsApi.StoryCategory, order: HackerNewsApi.StoryOrder,
                        ids: seq<int>, stories: seq<Story>): (r: ResultsTable)
    ensures r.Keys == table.Keys + {category}
    ensures order in r[category] && multiset(r[category][order]) == multiset(stories)
  {
    var categoryResults := if category in table then table[category] else map[];
    var withRecent := if order == HackerNewsApi.Original || order == HackerNewsApi.Search(AlgoliaEndpoint.Recent)
                      then categoryResults[HackerNewsApi.Search(AlgoliaEndpoint.Recent) := stories]
                      else categoryResults;
    var results := if order == HackerNewsApi.Original then Utilities.SortToMatch(stories, ids, StoryKey) else stories;
    table[category := withRecent[order := results]]
  }

  /** Only the fetched category's entry is written. */
  lemma StoreResultsOtherCategories(table: ResultsTable, category: HackerNewsApi.StoryCategory, order: HackerNewsApi.StoryOrder,
                                    ids: seq<int>, stories: seq<Story>, other: HackerNewsApi.StoryCategory)
    requires other != category
    ensures other in StoreResults(table, category, order, ids, stories) <==> other in table
    ensures other in table ==> StoreResults(table, category, order, ids, stories)[other] == table[other]
  {
  }

  /** A search order writes its own entry, with the stories as the search returned them,
      and leaves the category's other orders as they were. */
  lemma StoreResultsSearchOrder(table: ResultsTable, category: HackerNewsApi.StoryCategory, t: AlgoliaEndpoint.SearchType,
                                ids: seq<int>, stories: seq<Story>, other: HackerNewsApi.StoryOrder)
    requires other != HackerNewsApi.Search(t)
    ensures var entry := StoreResults(table, category, HackerNewsApi.Search(t), ids, stories)[category];
            entry[HackerNewsApi.Search(t)] == stories
            && (other in entry <==> category in table && other in table[category])
            && (other in entry ==> entry[other] == table[category][other])
  {
  }

  /** The original order writes two entries: the stories in the order of the id list, and
      the same stories as found under the recent search. Every other order is kept. */
  lemma StoreResultsOriginalOrder(table: ResultsTable, category: HackerNewsApi.StoryCategory,
                                  ids: seq<int>, stories: seq<Story>, other: HackerNewsApi.StoryOrder)
    requires other != HackerNewsApi.Original && other != HackerNewsApi.Search(AlgoliaEndpoint.Recent)
    ensures var entry := StoreResults(table, category, HackerNewsApi.Original, ids, stories)[category];
            entry[HackerNewsApi.Search(AlgoliaEndpoint.Recent)] == stories
            && multiset(entry[HackerNewsApi.Original]) == multiset(stories)
            && (other in entry <==> category in table && other in table[category])
            && (other in entry ==> entry[other] == table[category][other])
  {
  }

  /** When the id list names every story found, the original order lists them by their
      position in the category's id list. */
  lemma StoreResultsOriginalSorted(table: ResultsTable, category: HackerNewsApi.StoryCategory,
                                   ids: seq<int>, stories: seq<Story>)
    requires AllNumericStories(stories)
    requires forall s :: s in stories ==> s.Id() in ids
    ensures var sorted := StoreResults(table, category, HackerNewsApi.Original, ids, stories)[category][HackerNewsApi.Original];
            Utilities.AllKnown(sorted, ids, StoryKey) && Utilities.RankSorted(sorted, ids, StoryKey)
  {
    Utilities.SortToMatchSorted(stories, ids, StoryKey);
  }

  class HackerNewsCategory {
    var categoryOrderResults: ResultsTable
    var fetchStatus: AlgoliaEndpoint.FetchStatus

    constructor ()
      ensures categoryOrderResults == map[] && fetchStatus == AlgoliaEndpoint.Idle
    {
      categoryOrderResults := map[];
      fetchStatus := AlgoliaEndpoint.Idle;
    }

    /** `fetch(category:order:)`, given the outcome of `fetchItemIds(for: category)` and of
        the search for the returned query. A failure of either leaves the table as it was
        and records the reason; otherwise the story hits are stored and the status is idle. */
    method Fetch(category: HackerNewsApi.StoryCategory, order: HackerNewsApi.StoryOrder,
                 idsOutcome: Result<seq<int>, string>,
                 searchOutcome: Result<seq<SearchResults.SearchResult>, string>)
      returns (query: Option<AlgoliaEndpoint.SearchParam>)
      modifies this
      ensures idsOutcome.Failure? ==> query.None?
      ensures idsOutcome.Success? ==> query == Some(CategoryQuery(order, idsOutcome.value))
      ensures idsOutcome.Failure? ==>
                categoryOrderResults == old(categoryOrderResults) && fetchStatus == AlgoliaEndpoint.Failed(idsOutcome.error)
      ensures idsOutcome.Success? && searchOutcome.Failure? ==>
                categoryOrderResults == old(categoryOrderResults) && fetchStatus == AlgoliaEndpoint.Failed(searchOutcome.error)
      ensures idsOutcome.Success? && searchOutcome.Success? ==>
                categoryOrderResults == StoreResults(old(categoryOrderResults), category, order, idsOutcome.value,
                                                     SearchResults.OnlyStories(searchOutcome.value))
                && fetchStatus == AlgoliaEndpoint.Idle
    {
      fetchStatus := AlgoliaEndpoint.Fetching;
      if idsOutcome.Failure? {
        fetchStatus := AlgoliaEndpoint.Failed(idsOutcome.error);
        return None;
      }
      var postIds := idsOutcome.value;
      query := Some(CategoryQuery(order, postIds));
      if searchOutcome.Failure? {
        fetchStatus := AlgoliaEndpoint.Failed(searchOutcome.error);
        return;
      }
      Store(category, order, postIds, SearchResults.OnlyStories(searchOutcome.value));
      fetchStatus := AlgoliaEndpoint.Idle;
    }

    /** The part of `fetch(category:order:)` after both requests succeeded that writes the
        table: the category's entry is read, the recent search is filled for the original
        and recent orders, the original order is sorted to the id list, and the entry is
        written back. */
    method Store(category: HackerNewsApi.StoryCategory, order: HackerNewsApi.StoryOrder,
                 postIds: seq<int>, stories: seq<Story>)
      modifies this
      ensures categoryOrderResults == StoreResults(old(categoryOrderResults), category, order, postIds, stories)
      ensures fetchStatus == old(fetchStatus)
    {
      var categoryResults := if category in categoryOrderResults then categoryOrderResults[category] else map[];
      var results := stories;
      if order == HackerNewsApi.Original || order == HackerNewsApi.Search(AlgoliaEndpoint.Recent) {
        categoryResults := categoryResults[HackerNewsApi.Search(AlgoliaEndpoint.Recent) := results];
      }
      if order == HackerNewsApi.Original {
        results := Utilities.SortToMatch(results, postIds, StoryKey);
      }
      categoryResults := categoryResults[order := results];
      categoryOrderResults := categoryOrderResults[category := categoryResults];
    }
  }
}
