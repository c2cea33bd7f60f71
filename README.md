# Hacker News client core, in Dafny

This project models the comment-tree pipeline and the pure helpers of a Hacker News
reader for iOS. The reader has two targets, `HNClient` and `OctalClone`.

- **The comment-tree pipeline.** A flat list of search-index comment hits, each carrying
  its parent's id, is turned into a nested tree (`buildCommentTree`). The tree is then
  re-ordered with the authoritative child-id lists of the official item API (`sortToMatch`,
  `sortComments`). Items are fetched only for parents that have more than one reply (the
  child-count `reduce` and the `> 1` filter).
- **The search-index query serialiser.** Tags, AND/OR tag groups, numeric filters and
  their operators, the `path` choice, `queryItems` and `buildUrl`.
- **The official API helpers.** Status classification (`check`, `handleURLResponse`),
  `Item.childIds`, `StoryOrder`, `PopulatedItem` and `fetchItem`.
- **The record shapes and their decoding discriminators.** `Post`, `CommentPost`,
  `StoryPost`, `PostPreview`, `SearchResult` and its variants.
- **Three stateful pieces.**
  - `PostFetcher.fetchPost` is a status machine plus its combine step (class
    `PostFetching.PostFetcher`).
  - `HackerNewsCategory.fetch` is a nested results table plus a fetch status (class
    `HackerNewsCategories.HackerNewsCategory`).
  - The id-keyed array edits `update`, `toggle`, `remove` and the subscript (class
    `UtilityExtensions.IdentifiedArray`, whose `elements` field is the Swift array).

Modules follow the source files:

| module | source |
|---|---|
| `PostTypes`, `Posts` | `HNClient/Post.swift` |
| `SearchResults` | `OctalClone/SearchResults.swift` |
| `AlgoliaEndpoint` | the serialiser copies in `HNClient/AlgoliaFetch.swift` and `OctalClone/AlgoliaAPI.swift` |
| `AlgoliaApi` | the child-count reduce and `fromHNSortOrder` of both copies |
| `HackerNewsApi` | `HNClient/HackerNewsAPI.swift` and `HNClient/HNApiPub.swift` |
| `Utilities` | `HNClient/Utilities.swift` |
| `PostFetching` | `HNClient/PostFetcher.swift` |
| `HackerNewsCategories` | `OctalClone/HackerNewsCategory.swift` |
| `UtilityExtensions` | `OctalClone/UtilityExtensions.swift` |

`Wrappers` (Option, Result, Outcome) and `Strings` (decimal printing and parsing, join,
split) are support modules. `Strings.ParseInt` stands for Swift's `Int(String)`: an
optional sign, then decimal digits, within the 64-bit range. Every `Int(objectID)!` is
modelled as a function that requires this parse to succeed.

Every network request, publisher and task is an input: a `Result` value that is either the
decoded payload or the failure reason. The HTTP response is a `UrlResponse` value. The host
that `URL(string:)?.host()` would extract is a parameter (`host: Option<string>`).

Decisions where the code and its description differ, or where the code needs a choice
to be stated in Dafny:

- **`buildCommentTree` has no decreasing measure.** A comment whose `parentId` is its own
  id makes it recurse forever. `Utilities.BuildCommentTree` therefore takes a ghost
  `rank` with which every reply ranks below its parent (`Utilities.RankedBy`), and
  `Utilities.SelfReplyHasNoRank` shows that a self-reply admits no such rank.
- **`sortToMatch` sorts with a comparator that is false whenever an id is missing.** That
  comparator is not a strict weak order, and Swift's `sorted(by:)` makes no promise about
  its output. Since Swift 5 that sort is a stable merge sort: it first finds the natural
  runs, reversing strictly descending ones, extends short runs by insertion, and then
  merges them. The model uses a plain stable insertion sort. The contracts claim only what
  holds for any sort: a permutation, and sorted by first index when every id is known
  (the comparator is then a strict weak order).
  `Utilities.SortToMatchSkipsKnownPair` shows that two known ids can stay inverted when an
  unknown one sits between them. So "sorted by first index" does hold only when every id
  is known.
- **`sortComments` re-orders every other level.** It re-orders the child lists of the
  node's direct children, then recurses into the grandchildren. The model keeps this:
  `Utilities.SortCommentsSecondLevel` and `Utilities.SortCommentsKeepsThirdLevel`.
- **One failed fan-out request fails the whole post.** The fan-out is
  `flatMap` + `collect` over the item requests, zipped with the other two requests, so
  any single failure reaches the sink as a failure. Where several fail, the model reports
  the first one in argument order: `HackerNewsApi.CollectItems` and `PostFetching.Zip3`.
- **`update(with:position: .identity)` has a bug.** It removes the old element and then
  assigns at the same index. That overwrites the element that used to follow, and traps
  when the old element was the last one. `UtilityExtensions.Updated` and
  `UtilityExtensions.IdentifiedArray.Update` model the code as written, with the
  precondition that keeps it from trapping. See "## Findings".

## Model

| member | source | states |
|---|---|---|
| PostTypes.DecodePostType | HNClient/Post.swift:30-42 | the raw `type` decodes exactly for "story" and "comment" |
| PostTypes.DecodePostTypeInverts | HNClient/Post.swift:30-42 | decoding inverts the raw value, and only the raw value decodes to a case |
| PostTypes.BuildPostUrl | HNClient/Post.swift:79-81 | the given URL when present, otherwise a string starting with the item URL prefix |
| PostTypes.FallbackUrlNamesItem | HNClient/Post.swift:79-81 | the fallback URL ends in the decimal id, which parses back to the id |
| Strings.IntToString | HNClient/Post.swift:80 | Swift's `"\(n)"`: at least one character, a leading "-" exactly for negative numbers, and digits everywhere else |
| Strings.ParseInt | OctalClone/SearchResults.swift:185 | Swift's `Int(String)`: a parsed value fits in 64 bits and comes from a non-empty string |
| Strings.ParseIntOfIntToString | OctalClone/SearchResults.swift:185 | every 64-bit integer printed in decimal parses back to itself |
| PostTypes.UrlHostPlain | HNClient/Post.swift:254-261 | no host gives none; a leading "www." is removed; any other host is returned unchanged |
| PostTypes.UrlHostPlainStripsOnce | HNClient/Post.swift:254-261 | exactly one leading "www." is stripped, not two |
| Posts.CommentPost.Author | HNClient/Post.swift:116-117 | the author, or "__deleted__" when absent |
| Posts.CommentPost.PostUrlString | HNClient/Post.swift:121 | the stored URL, otherwise the item URL fallback |
| Posts.StoryPost.PostUrlString | HNClient/Post.swift:86 | the stored URL, otherwise the item URL fallback |
| Posts.Post.Id | HNClient/Post.swift:16-21 | the id of the wrapped variant |
| Posts.Post.Children | HNClient/Post.swift:12-28 | the children of the wrapped variant |
| Posts.Post.WithChildren | HNClient/Post.swift:12-28 | only the children are replaced; the variant and the id are kept |
| Posts.StoryPost.PreviewPoints | HNClient/Post.swift:94 | a story always has preview points, its own points |
| Posts.DecodeStoryPost | HNClient/Post.swift:83-110 | succeeds iff every required key is present, the `@HTMLText` key `text` included (its value may be null); with no stored post URL, the linked URL and text copied; keys are read in `CodingKeys` order, so once id, created_at_i, author and type are there a missing `title` is what fails, and with `title` there too a missing `text` is |
| Posts.DecodeCommentPost | HNClient/Post.swift:114-148 | succeeds iff the required keys are present, `text` included (its value may be null); author and story id stay optional and are copied, as is the text; keys are read in `CodingKeys` order, so once id, created_at_i and type are there a missing `text` fails before `children` |
| Posts.DecodeTypeKey | HNClient/Post.swift:30-42 | the `type` key decodes iff it is "story" or "comment", the result's raw value is the key, and a failure names `type` |
| Posts.DecodePost | HNClient/Post.swift:47-57 | a "story" type yields a story, a "comment" type a comment, any other type fails; the id and children come from the payload |
| Posts.DecodedPostDefaults | HNClient/Post.swift:79-81 | a decoded post's URL is the item URL fallback; a comment with no author reads "__deleted__" |
| Posts.CommentPostFrom | HNClient/Post.swift:129-137 | copies id, author, date and text from the search hit, stores the given children, sets no story id, and keeps the hit's post URL |
| Posts.PostPreview.UrlHostPlain | HNClient/Post.swift:245-261 | no linked URL gives no host, and the result is none exactly when the host is none |
| Posts.PreviewFromSearchResult | HNClient/Post.swift:203-222 | a story hit gives type story with its comment count and points; a comment hit gives type comment with neither; the URL is the item URL |
| Posts.PreviewFromPost | HNClient/Post.swift:224-241 | id, title, author, type and URL come from the post, with no comment count; a story copies its points, and a comment has no points and takes the given link |
| Posts.PreviewRoutesAgree | HNClient/Post.swift:203-241 | a comment hit previews the same whether it goes directly or through `CommentPost` |
| SearchResults.StorySearchResult.PostUrlString | OctalClone/SearchResults.swift:122-149 | the item URL of the story's id |
| SearchResults.CommentSearchResult.Title | OctalClone/SearchResults.swift:162 | the story title, or "N/A" |
| SearchResults.CommentSearchResult.PostUrlString | OctalClone/SearchResults.swift:164 | the item URL of the comment's id |
| SearchResults.SearchResult.Id | OctalClone/SearchResults.swift:51-56 | the wrapped variant's id |
| SearchResults.SearchResult.Type | OctalClone/SearchResults.swift:65-70 | story iff the story variant, comment iff the comment variant |
| SearchResults.SearchResultCollection.Hits | OctalClone/SearchResults.swift:11-12 | the hits, or empty when the payload has none |
| SearchResults.OnlyStories | OctalClone/SearchResults.swift:29-36 | exactly the wrapped stories |
| SearchResults.OnlyComments | OctalClone/SearchResults.swift:37-44 | exactly the wrapped comments |
| SearchResults.OnlyDistributes | OctalClone/SearchResults.swift:28-45 | both filters distribute over concatenation, so they keep the original order |
| SearchResults.OnlyPartition | OctalClone/SearchResults.swift:28-45 | together the two filters account for every hit |
| SearchResults.DecodeStory | OctalClone/SearchResults.swift:122-149 | succeeds iff the story's required keys are present |
| SearchResults.DecodeComment | OctalClone/SearchResults.swift:153-180 | succeeds iff `objectID`, `author`, `created_at_i` and the `@HTMLText` key `comment_text` are present; the text copied may be null; with the first three present, the failure names `comment_text` |
| SearchResults.DecodeSearchResult | OctalClone/SearchResults.swift:79-98 | missing `_tags` fails; `_tags` containing "story" decode as a story, any other as a comment |
| SearchResults.DecodeHitPayloads | OctalClone/SearchResults.swift:84-96 | a story payload decodes to that story and a comment payload to that comment |
| AlgoliaEndpoint.SearchTypeRawValue | HNClient/AlgoliaFetch.swift:158-161 | "Best" exactly for best, otherwise "Recent" |
| AlgoliaEndpoint.OperatorLabel | HNClient/AlgoliaFetch.swift:190-196 | "=", "<" or ">" first, followed by "=" exactly for the or-equal comparisons |
| AlgoliaEndpoint.ParseOperatorLabel | OctalClone/AlgoliaAPI.swift:175-181 | an operator label is read back followed by a value |
| AlgoliaEndpoint.ParseComparisonOf | HNClient/AlgoliaFetch.swift:176-196 | a label followed by a decimal value is read back to the operator and the value |
| AlgoliaEndpoint.ParseNumericFilterDescription | HNClient/AlgoliaFetch.swift:176-182 | the description (field, label, value) identifies the filter: it parses back to it |
| AlgoliaEndpoint.FilterField | HNClient/AlgoliaFetch.swift:176-182 | a non-empty field name without ","; its first letter tells the three fields apart |
| AlgoliaEndpoint.NumericFilterDescription | HNClient/AlgoliaFetch.swift:176-182 | field name, operator label and decimal value, in that order; ParseNumericFilterDescription reads it back |
| AlgoliaEndpoint.NumericFilterDescriptionHasNoComma | OctalClone/AlgoliaAPI.swift:157-168 | a description contains no ",", so joining by "," can be undone |
| AlgoliaEndpoint.TagId | HNClient/AlgoliaFetch.swift:230-242 | an author tag is "author_" followed by the user name, and a story tag "story_" followed by the id |
| AlgoliaEndpoint.TagDescription | OctalClone/AlgoliaAPI.swift:291-305 | the description equals the tag's id in every case |
| AlgoliaEndpoint.ParseTagDescription | HNClient/AlgoliaFetch.swift:230-242 | every tag is recovered from its id |
| AlgoliaEndpoint.TagDescriptionHasNoComma | OctalClone/AlgoliaAPI.swift:211-223 | a description whose author or story text has no comma contains none |
| AlgoliaEndpoint.PageTypeIndex | HNClient/AlgoliaFetch.swift:222-224 | page-type tags are found in the page-type case list |
| AlgoliaEndpoint.TagKindsDisjoint | OctalClone/AlgoliaAPI.swift:308-327 | the content, page and id kinds are pairwise disjoint and match their case lists |
| AlgoliaEndpoint.SearchParamWithTag | HNClient/AlgoliaFetch.swift:138-143 | a single tag becomes one AND group |
| AlgoliaEndpoint.SearchParamWithTags | OctalClone/AlgoliaAPI.swift:116-121 | the list of tags becomes exactly one AND group |
| AlgoliaEndpoint.SearchPath | HNClient/AlgoliaFetch.swift:145 | "search" iff the search type is best, otherwise "search_by_date" |
| AlgoliaEndpoint.TagDescriptions | HNClient/AlgoliaFetch.swift:273-278 | one description per tag, in order |
| AlgoliaEndpoint.TagsToParamString | OctalClone/AlgoliaAPI.swift:259-264 | none iff the list is empty, otherwise the descriptions joined by "," |
| AlgoliaEndpoint.ParseTagsOfDescriptions | HNClient/AlgoliaFetch.swift:273-278 | the descriptions parse back to the tags |
| AlgoliaEndpoint.TagsToParamStringRoundTrip | OctalClone/AlgoliaAPI.swift:259-264 | splitting the parameter at "," gives back the tags |
| AlgoliaEndpoint.RenderTagGroup | HNClient/AlgoliaFetch.swift:285-299 | an empty group renders nothing; an AND group its joined tags; an OR group the same inside parentheses |
| AlgoliaEndpoint.RenderTagGroups | OctalClone/AlgoliaAPI.swift:267-277 | nothing is rendered exactly when every group is empty |
| AlgoliaEndpoint.RenderTagGroupsSingle | OctalClone/AlgoliaAPI.swift:267-277 | an empty group is dropped, any other gives its own rendering |
| AlgoliaEndpoint.RenderTagGroupsAppend | OctalClone/AlgoliaAPI.swift:267-277 | the renderings keep the order of the groups |
| AlgoliaEndpoint.BuildTagQueryParam | OctalClone/AlgoliaAPI.swift:266-279 | "" for nil; otherwise the renderings of the non-empty groups joined by ",", and "" when every group is empty |
| AlgoliaEndpoint.BuildTagQueryParamAppend | OctalClone/AlgoliaAPI.swift:266-279 | two runs of groups give their two parameters joined by ",", and a run that renders nothing adds nothing |
| AlgoliaEndpoint.BuildTagQueryParamDropsEmpty | HNClient/AlgoliaFetch.swift:285-299 | an empty group anywhere leaves the parameter unchanged |
| AlgoliaEndpoint.BuildTagQueryParamSingle | HNClient/AlgoliaFetch.swift:285-299 | one group gives its rendering, or "" when it has no tags |
| AlgoliaEndpoint.NumericFilterDescriptions | HNClient/AlgoliaFetch.swift:280-283 | one description per filter, in order |
| AlgoliaEndpoint.BuildNumericFilterParam | OctalClone/AlgoliaAPI.swift:254-257 | "" when there are no filters, otherwise the descriptions joined by "," |
| AlgoliaEndpoint.ParseNumericFiltersOfDescriptions | HNClient/AlgoliaFetch.swift:280-283 | the descriptions parse back to the filters |
| AlgoliaEndpoint.BuildNumericFilterParamRoundTrip | OctalClone/AlgoliaAPI.swift:254-257 | the parameter splits and parses back to the filter list |
| AlgoliaEndpoint.KeepWithValue | HNClient/AlgoliaFetch.swift:146-155 | keeps exactly the items whose value is present and not empty |
| AlgoliaEndpoint.KeepWithValueRankOrdered | OctalClone/AlgoliaAPI.swift:124-132 | the filter keeps the fixed parameter order |
| AlgoliaEndpoint.QueryItems | OctalClone/AlgoliaAPI.swift:124-132 | every item has a value; the order is query, tags, numericFilters, hitsPerPage; "hitsPerPage" is last with "500" |
| AlgoliaEndpoint.QueryItemsValues | HNClient/AlgoliaFetch.swift:146-155 | each item holds its parameter's value, and an absent or empty value has no item |
| AlgoliaEndpoint.BuildUrl | HNClient/AlgoliaFetch.swift:23-33 | the Algolia host and the "/api/v1/" base path, followed by "items/<id>", "users/<id>" or the search path |
| AlgoliaEndpoint.BuildUrlPathNamesEndpoint | OctalClone/AlgoliaAPI.swift:17-27 | the path names the endpoint kind: item, user, or search with its type |
| AlgoliaApi.CommentQueryTags | HNClient/AlgoliaFetch.swift:96 | the tags are `comment` and `story_<id>` |
| AlgoliaApi.HNClientCommentQuery | HNClient/AlgoliaFetch.swift:96 | a by-date query with the initialiser's defaults (no text, no numeric filter) and one AND group of the comment tags |
| AlgoliaApi.OctalCommentQuery | OctalClone/AlgoliaAPI.swift:79 | the same defaults, with the `tags:` list becoming one AND group of the comment tags |
| AlgoliaApi.CommentQueriesAgree | OctalClone/AlgoliaAPI.swift:79 | both copies send the same by-date query, tagged "comment,story_<id>" |
| AlgoliaApi.Step | HNClient/AlgoliaFetch.swift:105-111 | a reply to another comment adds one to that parent's count and changes nothing else; a reply to the story, or no parent, changes nothing |
| AlgoliaApi.ChildCounts | HNClient/AlgoliaFetch.swift:105-112 | the story is never a key and every stored count is at least one |
| AlgoliaApi.ChildCountsOfHits | HNClient/AlgoliaFetch.swift:100-112 | the keys are exactly the non-story parents with replies among the comment hits, and each count is the number of those replies |
| AlgoliaApi.ChildCountsCount | HNClient/AlgoliaFetch.swift:105-112 | p is a key iff it is not the story and has replies, and its count is the number of replies |
| AlgoliaApi.FanOutSelectsBranchingParents | OctalClone/AlgoliaAPI.swift:83-91 | the fan-out fetches exactly the non-story parents with at least two replies among the comment hits |
| AlgoliaApi.FanOutMatchesTree | HNClient/HackerNewsAPI.swift:100-109 | a comment's item is fetched iff its node in the built tree has more than one child |
| AlgoliaApi.FromHNSortOrder | OctalClone/AlgoliaAPI.swift:138-143 | original maps to recent, and a search order to its own type |
| AlgoliaApi.FromHNSortOrderOnto | OctalClone/AlgoliaAPI.swift:138-143 | every search type is reached, and original is fetched like a recent search |
| HackerNewsApi.Check | HNClient/HackerNewsAPI.swift:138-153 | passes iff 200-299; 4xx "File not found.", 5xx "Bad Server Response", otherwise "Something went wrong" |
| HackerNewsApi.HandleUrlResponse | HNClient/HNApiPub.swift:84-88 | succeeds iff the response is HTTP with status exactly 200, with the data unchanged |
| HackerNewsApi.HandleUrlResponseNarrowerThanCheck | HNClient/HNApiPub.swift:84-88 | every accepted response passes `check`, but 201-299 pass `check` and fail here |
| HackerNewsApi.Item.ChildIds | HNClient/HackerNewsAPI.swift:206-207 | the kids in received order, or empty when absent |
| HackerNewsApi.PopulatedItemFrom | HNClient/HackerNewsAPI.swift:248-262 | stores the given index and children |
| HackerNewsApi.PopulatedItemKeepsFields | HNClient/HackerNewsAPI.swift:248-262 | every item field is copied, so the item can be read back |
| HackerNewsApi.Label | HNClient/HNApiPub.swift:106-112 | "Original" for the original order, otherwise the search type's raw value |
| HackerNewsApi.AllStoryOrdersComplete | HNClient/HackerNewsAPI.swift:156-166 | `allCases` lists the three orders once each, and labels tell the orders apart |
| HackerNewsApi.FetchItem | HNClient/HackerNewsAPI.swift:89-98 | succeeds iff the status passes and the payload decodes; the offset is always 0 |
| HackerNewsApi.FetchItemPub | HNClient/HNApiPub.swift:34-39 | succeeds iff the payload decodes; the offset is always 0 |
| HackerNewsApi.FanOutParentIds | HNClient/HNApiPub.swift:41-50 | exactly the keys whose count is greater than 1 |
| HackerNewsApi.CollectItems | HNClient/HackerNewsAPI.swift:100-109 | succeeds iff every request succeeds, with one item each; otherwise fails with one of their errors |
| Utilities.FirstIndexWhere | HNClient/Utilities.swift:12-16 | the first index whose key matches, or none when no key matches |
| Utilities.ElementWithId | HNClient/Utilities.swift:12-16 | an element with the id, and no earlier element has it |
| Utilities.FirstIndexOf | HNClient/Utilities.swift:51-57 | the first index of the id in the list, or none iff it is absent |
| Utilities.Precedes | HNClient/Utilities.swift:51-57 | false as soon as either id is missing from `ids`, and never true for two items with the same id |
| Utilities.InsertBack | HNClient/Utilities.swift:50-59 | one insertion step: one element longer, and the old elements plus the new one as a multiset |
| Utilities.SortToMatch | HNClient/Utilities.swift:50-59 | same length and same elements: a permutation |
| Utilities.PrecedesByRank | HNClient/Utilities.swift:51-57 | the comparator holds iff the first index of one known id is smaller than the other's |
| Utilities.InsertBackSorted | HNClient/Utilities.swift:50-59 | inserting a known item into a sorted list keeps it sorted by first index |
| Utilities.SortToMatchSorted | HNClient/Utilities.swift:50-59 | when every id is known, the output is sorted by first index in the id list |
| Utilities.SortToMatchOfNoInversion | HNClient/Utilities.swift:50-59 | a list the comparator never inverts is left as it is |
| Utilities.SortToMatchIdempotent | HNClient/Utilities.swift:50-59 | sorting a fully known list twice changes nothing more |
| Utilities.SortToMatchNoneKnown | HNClient/Utilities.swift:51-57 | with no known id the list is unchanged |
| Utilities.SortToMatchSkipsKnownPair | HNClient/Utilities.swift:51-57 | two known ids separated by an unknown one can stay inverted |
| Utilities.TreeFlatMap | HNClient/Utilities.swift:61-72 | pre-order listing: the root's value first, one value per node |
| Utilities.FlatForestAppend | HNClient/Utilities.swift:61-72 | flattening a list of trees distributes over concatenation |
| Utilities.FlatForestPermutation | HNClient/Utilities.swift:61-72 | permuting sibling trees permutes the flattened values |
| Utilities.Reordered | HNClient/Utilities.swift:39-44 | the re-ordered child list is a permutation of the children |
| Utilities.SortComments | HNClient/Utilities.swift:35-48 | the node's own fields, and the order and fields of its direct children, are unchanged |
| Utilities.SortChild | HNClient/Utilities.swift:37-46 | the child's own fields are kept, and its children are re-ordered as `sortToMatch` orders them |
| Utilities.SortDirectChildren | HNClient/PostFetcher.swift:48-52 | the root's children keep their order and fields |
| Utilities.SortPost | HNClient/PostFetcher.swift:48-52 | `sortComments` on the root keeps the root's own fields and its children's order and fields, and each child's children come in the order `Reordered` gives |
| Utilities.SortCommentsSecondLevel | HNClient/Utilities.swift:39-44 | a child with a fetched item gets its children sorted to the item's kids; any other child keeps its children's order |
| Utilities.SortCommentsKeepsThirdLevel | HNClient/Utilities.swift:37-46 | every grandchild list comes from a grandchild recursed into, so depth-3 order is untouched |
| Utilities.SortCommentsKeepsNodes | HNClient/Utilities.swift:35-48 | the tree keeps its multiset of nodes and its size |
| Utilities.SortPostKeepsNodes | HNClient/PostFetcher.swift:48-52 | the whole post keeps its multiset of nodes |
| Utilities.ChildrenOf | HNClient/Utilities.swift:29-33 | exactly the comments whose parent is the id |
| Utilities.ChildrenOfAppend | HNClient/Utilities.swift:29-33 | the filter keeps the comments' relative order |
| Utilities.SelfReplyHasNoRank | HNClient/Utilities.swift:29-33 | a comment that replies to itself rules out any decreasing rank |
| Utilities.BuildCommentTree | HNClient/Utilities.swift:29-33 | one node per reply to the id, in order, built from the hit, whose children are the tree of its own replies |
| Utilities.BuildCommentTreeLinked | HNClient/Utilities.swift:29-33 | at every depth, each node is a reply to its parent node |
| Utilities.BuildCommentTreeHoldsDescendants | HNClient/Utilities.swift:29-33 | with distinct ids, a comment is a node exactly when a chain of replies leads to it from the id, no node id repeats, and the node count is the number of descendant ids |
| Utilities.TreeIdsAgree | HNClient/Utilities.swift:29-33 | the tree's pre-order ids equal the ids read off the parent links alone |
| Utilities.ReplyIdsAreDescendants | HNClient/Utilities.swift:29-33 | an id is listed exactly when its comment descends from the id |
| Utilities.ReplyIdsNoDuplicates | HNClient/Utilities.swift:29-33 | with distinct ids, no id is listed twice |
| Utilities.SiblingTreesDisjoint | HNClient/Utilities.swift:29-33 | the subtrees of two different replies share no id |
| PostFetching.Combine | HNClient/PostFetcher.swift:48-52 | the root is kept apart from its children, whose order is the root item's kids order |
| PostFetching.CombineKeepsNodes | HNClient/PostFetcher.swift:48-52 | the combined post holds the same comment nodes: only sibling order changes |
| PostFetching.CombineOrdersTopLevel | HNClient/PostFetcher.swift:49-50 | when the story item lists every top comment, the top comments follow its order |
| PostFetching.Zip3 | HNClient/PostFetcher.swift:45-47 | succeeds iff all three succeed, with all three values; otherwise fails with one of their errors |
| PostFetching.PostFetcher.constructor | HNClient/PostFetcher.swift:11-16 | no post, no parent post, idle, nothing in flight |
| PostFetching.PostFetcher.FetchPost | HNClient/PostFetcher.swift:37-47 | fetching; the previous subscription is cancelled and a new one is in flight; neither post slot is written |
| PostFetching.PostFetcher.Receive | HNClient/PostFetcher.swift:48-65 | a cancelled subscription changes nothing; a live one stores the combined post and goes idle, or records the failure and keeps the post; `parentPost` is never written |
| HackerNewsCategories.StoryTags | OctalClone/HackerNewsCategory.swift:27-29 | one `story_<id>` tag per id, in order |
| HackerNewsCategories.CategoryQuery | OctalClone/HackerNewsCategory.swift:27-29 | the search type the order maps to, no text or numeric filter, and a second tag group holding one `story_<id>` tag per id |
| HackerNewsCategories.CategoryQueryPath | OctalClone/HackerNewsCategory.swift:27-29 | the query is ranked by relevance only for the best order |
| HackerNewsCategories.CategoryQueryTagParam | OctalClone/HackerNewsCategory.swift:27-29 | the tags read "story,(story_<id>,…)", or only "story" when there are no ids |
| HackerNewsCategories.StoryKey | OctalClone/HackerNewsCategory.swift:39-41 | a story's id whenever its objectID is numeric |
| HackerNewsCategories.StoreResults | OctalClone/HackerNewsCategory.swift:33-43 | the table gains the fetched category and keeps every other key, and the order's entry holds the fetched stories, reordered at most |
| HackerNewsCategories.StoreResultsOtherCategories | OctalClone/HackerNewsCategory.swift:33-43 | other categories' entries are untouched |
| HackerNewsCategories.StoreResultsSearchOrder | OctalClone/HackerNewsCategory.swift:33-43 | a search order writes its own entry with the stories as found; other orders are kept |
| HackerNewsCategories.StoreResultsOriginalOrder | OctalClone/HackerNewsCategory.swift:36-42 | the original order stores the found stories under recent, and a permutation of them under original; other orders are kept |
| HackerNewsCategories.StoreResultsOriginalSorted | OctalClone/HackerNewsCategory.swift:39-41 | when the ids name every story, the original entry follows the id list |
| HackerNewsCategories.HackerNewsCategory.constructor | OctalClone/HackerNewsCategory.swift:12-14 | an empty table and idle |
| HackerNewsCategories.HackerNewsCategory.Fetch | OctalClone/HackerNewsCategory.swift:18-50 | the query for the ids; a failure of either request leaves the table and records the reason; success stores the story hits and goes idle |
| HackerNewsCategories.HackerNewsCategory.Store | OctalClone/HackerNewsCategory.swift:33-43 | the table becomes StoreResults of the old table for the fetched category, order, ids and stories; the status is untouched |
| UtilityExtensions.RemoveAt | OctalClone/UtilityExtensions.swift:21 | removes exactly the element at the index, shifting the rest down |
| UtilityExtensions.IndexMatching | OctalClone/UtilityExtensions.swift:90-92 | the first index with the element's id, or none iff no element has it |
| UtilityExtensions.UpdateSafe | OctalClone/UtilityExtensions.swift:20-24 | a call is unsafe iff it is `.identity` and the first match is the last element; every other call is safe |
| UtilityExtensions.Updated | OctalClone/UtilityExtensions.swift:19-31 | the new element is always in the result; an absent id grows the array by one, a moved element keeps the length, and `.identity` on a present id shortens it by one |
| UtilityExtensions.UpdatedAbsent | OctalClone/UtilityExtensions.swift:19-31 | an absent id is appended at the end, for every position |
| UtilityExtensions.UpdatedPresentMoves | OctalClone/UtilityExtensions.swift:20-30 | with the id present, prepend moves the element to the front and append to the end, with the length kept |
| UtilityExtensions.UpdatedIdentityOverwritesNext | OctalClone/UtilityExtensions.swift:20-24 | with the id present, identity drops the element after the old one and shortens the array |
| UtilityExtensions.UpdatedIdentityExample | OctalClone/UtilityExtensions.swift:20-24 | updating the first of three elements in place loses the second |
| UtilityExtensions.UpdatedInPlace | OctalClone/UtilityExtensions.swift:13-19 | the documented intent: replace the element at its index, or append when absent |
| UtilityExtensions.UpdatedInPlaceTwice | OctalClone/UtilityExtensions.swift:13-19 | a second in-place update with the same id overrides the first |
| UtilityExtensions.Toggled | OctalClone/UtilityExtensions.swift:45-51 | a present id's first element is removed and the rest keep their places; an absent element is appended for `.append` and put at index 0 for `.prepend` |
| UtilityExtensions.ToggleTwiceRestores | OctalClone/UtilityExtensions.swift:45-51 | toggling an absent element twice restores the array |
| UtilityExtensions.Removed | OctalClone/UtilityExtensions.swift:63-67 | removes only the first match, and nothing when none matches |
| UtilityExtensions.ToggleOfPresentRemoves | OctalClone/UtilityExtensions.swift:46-47 | toggling a present id is `remove` |
| UtilityExtensions.ElementMatching | OctalClone/UtilityExtensions.swift:70-76 | with a match, the stored element at the first index with the id; without one, the argument itself |
| UtilityExtensions.Replaced | OctalClone/UtilityExtensions.swift:77-81 | replaces the first match only, and nothing when absent |
| UtilityExtensions.GetAfterSet | OctalClone/UtilityExtensions.swift:69-81 | reading back after setting gives the new value |
| UtilityExtensions.IdentifiedArray.constructor | OctalClone/UtilityExtensions.swift:12 | holds the given elements |
| UtilityExtensions.IdentifiedArray.IndexOf | OctalClone/UtilityExtensions.swift:90-92 | the first index with the element's id, or none iff there is none |
| UtilityExtensions.IdentifiedArray.FinalIndex | OctalClone/UtilityExtensions.swift:86 | the last index, which is negative for an empty array |
| UtilityExtensions.IdentifiedArray.Get | OctalClone/UtilityExtensions.swift:70-76 | the stored element at the first index with the argument's id, or the argument when none matches |
| UtilityExtensions.IdentifiedArray.Update | OctalClone/UtilityExtensions.swift:19-31 | the elements become the as-written update of the old elements |
| UtilityExtensions.IdentifiedArray.Toggle | OctalClone/UtilityExtensions.swift:45-51 | the elements become the toggle of the old elements |
| UtilityExtensions.IdentifiedArray.Remove | OctalClone/UtilityExtensions.swift:63-67 | the elements lose their first match |
| UtilityExtensions.IdentifiedArray.Set | OctalClone/UtilityExtensions.swift:77-81 | the first match is replaced by the new value |

## Left out

- Networking, Combine publishers, `async` tasks and cancellation. The requests are inputs
  (already-decoded `Result` values), and a subscription is a ticket. `fetchItemIds`,
  `postPublisher`, `searchResultsPublisher` and `userPublisher` are not modelled apart
  from their outcomes. The recursive `fetchPopulatedItem` task group and the URL-cache
  workaround in `HNApiPub` are not part of this model.
- `commentTreePublisher` (`HNClient/AlgoliaFetch.swift:73-92`) is not modelled. It places
  every comment at root level, so it is not the tree builder.
- The duplicate `buildCommentTree` in `HNClient/AlgoliaFetch.swift:14-18` has the same body
  as the one in `HNClient/Utilities.swift`, so `Utilities.BuildCommentTree` stands for both.
- JSON parsing is not modelled: payloads are datatypes whose `Option` fields are `None`
  for a missing key, and the decoders model which keys are required, the discriminators
  and the defaults. A key read through `@HTMLText` (`text`, `comment_text`) has two
  levels: the key must be there, and its value is `null` or a string. Nested `children`
  arrive already decoded.
- `htmlText`, HTML rendering, dates and their formatting, `systemImage`, `Tag.label`, and
  the story-category URLs are left out. They are UI and platform code.
- URL parsing is a parameter: `urlHostPlain` receives the host that `URL(string:)` would
  extract.
- The key-path `map`, `sorted` and `filter` helpers of `OctalClone/UtilityExtensions.swift`
  are left out. They only forward to the standard library.
- Utilities.SortToMatch: the run detection and merging of Swift's stable merge sort are
  not modelled, and with a comparator that is not a strict weak order they can order the
  list differently from the insertion sort used here. Only the permutation and the
  sorted-when-all-known properties are claimed, and these hold for any sort.
- Utilities.BuildCommentTree: requires a decreasing rank over the parent relation of every
  comment, which the source does not check. The source loops only on a cycle that can be
  reached from `id`, so a cycle elsewhere among the comments is excluded here but harmless
  there. The rank also demands a numeric `objectID` for every comment, while the source
  evaluates `Int(objectID)!` only for the comments the filter reaches.
- Utilities.BuildCommentTreeHoldsDescendants: also requires that no two comments share an
  `objectID`. With a repeated id the source lists the replies below it once per copy.
- Utilities.ElementWithId: requires an element with the id. The `first(where:)!` at
  `HNClient/Utilities.swift:14` traps when there is none, and that trap is a precondition
  here rather than an outcome.
- HackerNewsApi.Check: requires an HTTP response. The `as! HTTPURLResponse` cast at
  `HNClient/HackerNewsAPI.swift:142` traps on any other kind of response, and that trap is
  a precondition here rather than an outcome.
- HackerNewsApi.FetchItem: requires an HTTP response, for the same cast inside `check()`.
- HackerNewsCategories.HackerNewsCategory.Fetch: the `Int(objectID)!` trap is not an
  outcome here. The source reads a story's `id` only when `sortToMatch`'s comparator
  needs it, and traps only if that id is not numeric. The model sorts with `StoryKey`,
  which reads a non-numeric `objectID` as 0, so the call completes on every input.
  `StoreResultsOriginalSorted` is claimed only for numeric ids. The intermediate
  `.fetching` state, visible only while the requests are awaited, is collapsed into
  the call.
- UtilityExtensions.IdentifiedArray.Update: requires, for `.identity` with the id present,
  that the old element is not the last one. That is where the source traps.
- PostFetching.PostFetcher.FetchPost: the request itself is not issued. The delivery of
  its three outcomes is `Receive`.

## Findings

| source | as written | input that shows it | evidently intended | confidence | as-written member | corrected member |
|---|---|---|---|---|---|---|
| OctalClone/UtilityExtensions.swift:19-31 | with `.identity` and the id present, the old element is removed and then `self[index] = element` overwrites the element that followed it, or traps when the old element was last | `[(1,0),(2,0),(3,0)]` updated with `(1,9)` gives `[(1,9),(3,0)]`: the element `(2,0)` is lost | the doc comment says "inserts or replaces": the element is replaced at its index and the length is kept | not executed | UtilityExtensions.UpdatedIdentityExample | UtilityExtensions.UpdatedInPlace |
