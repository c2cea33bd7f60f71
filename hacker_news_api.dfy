/** The official item API's pure parts, from HNClient/HackerNewsAPI.swift and its
    Combine twin HNClient/HNApiPub.swift: the HTTP status rules of `URLResponse.check`
    and `handleURLResponse`, the `Item` record with its defaulted `childIds`,
    `PopulatedItem.init`, `StoryCategory`, `StoryOrder` with `allCases` and `label`, the
    offset that `fetchItem` reports, the `> 1` fan-out filter and the way the fan-out's
    item fetches are collected. */
module HackerNewsApi {
  import opened Wrappers
  import PostTypes
  import AlgoliaEndpoint

  // ---------------------------------------------------------------- responses

  /** A `URLResponse`: an HTTP response with its status code, or any other kind. */
  datatype UrlResponse = Http(statusCode: int) | NonHttp

  const FILE_NOT_FOUND: string := "File not found."
  const BAD_SERVER_RESPONSE: string := "Bad Server Response"
  const SOMETHING_WENT_WRONG: string := "Something went wrong"

  /** `URLResponse.check()`: 2xx passes; 4xx, 5xx and everything else throw
      `UserFetchError.response` with their own message. The `as! HTTPURLResponse` cast
      traps on any other kind of response. */
  function Check(response: UrlResponse): (r: Outcome<string>)
    requires response.Http?
    ensures r.Pass? <==> 200 <= response.statusCode <= 299
    ensures 400 <= response.statusCode <= 499 ==> r == Fail(FILE_NOT_FOUND)
    ensures 500 <= response.statusCode <= 599 ==> r == Fail(BAD_SERVER_RESPONSE)
    ensures r.Fail? && !(400 <= response.statusCode <= 599) ==> r == Fail(SOMETHING_WENT_WRONG)
  {
    var code := response.statusCode;
    if 200 <= code <= 299 then Pass
    else if 400 <= code <= 499 then Fail(FILE_NOT_FOUND)
    else if 500 <= code <= 599 then Fail(BAD_SERVER_RESPONSE)
    else Fail(SOMETHING_WENT_WRONG)
  }

  const BAD_SERVER_RESPONSE_ERROR: string := "URLError.badServerResponse"

  /** `handleURLResponse`: the data only for an HTTP response with status exactly 200. */
  function HandleUrlResponse<D>(data: D, response: UrlResponse): (r: Result<D, string>)
    ensures r.Success? <==> response == Http(200)
    ensures r.Success? ==> r.value == data
    ensures r.Failure? ==> r.error == BAD_SERVER_RESPONSE_ERROR
  {
    if response.Http? && response.statusCode == 200 then Success(data)
    else Failure(BAD_SERVER_RESPONSE_ERROR)
  }

  /** The Combine rule is strictly narrower than `check()`: whatever it accepts passes
      `check()`, while other 2xx codes pass `check()` only. */
  lemma HandleUrlResponseNarrowerThanCheck<D>(data: D, code: int)
    ensures HandleUrlResponse(data, Http(code)).Success? ==> Check(Http(code)).Pass?
    ensures 200 < code <= 299 ==> Check(Http(code)).Pass? && HandleUrlResponse(data, Http(code)).Failure?
  {
  }

  // -------------------------------------------------------------------- items

  /** `HackerNewsAPI.Item`; `kids` is the optional `_childIds`. */
  datatype Item = Item(
    id: int,
    author: Option<string>,
    commentCount: Option<int>,
    kids: Option<seq<int>>,
    points: Option<int>,
    time: Option<int>,
    title: Option<string>,
    text: Option<string>,
    postType: Option<PostTypes.PostType>,
    url: Option<string>,
    isDeleted: Option<bool>,
    isDead: Option<bool>)
  {
    /** `childIds`: the kids in the order received, or none. */
    function ChildIds(): (r: seq<int>)
      ensures kids.None? ==> r == []
      ensures kids.Some? ==> r == kids.value
    {
      kids.GetOr([])
    }
  }

  /** `PopulatedItem`: an item's fields without its kids, its position and its fetched children. */
  datatype PopulatedItem = PopulatedItem(
    id: int,
    author: Option<string>,
    commentCount: Option<int>,
    points: Option<int>,
    time: Option<int>,
    title: Option<string>,
    text: Option<string>,
    postType: Option<PostTypes.PostType>,
    url: Option<string>,
    isDeleted: Option<bool>,
    isDead: Option<bool>,
    children: seq<PopulatedItem>,
    index: int)

  /** `PopulatedItem.init(from:index:children:)`. */
  function PopulatedItemFrom(item: Item, index: int, children: seq<PopulatedItem>): (r: PopulatedItem)
    ensures r.index == index && r.children == children
  {
    PopulatedItem(item.id, item.author, item.commentCount, item.points, item.time, item.title,
                  item.text, item.postType, item.url, item.isDeleted, item.isDead, children, index)
  }

  /** The item a populated item was made from, given back the kids it does not keep. */
  function ItemOf(p: PopulatedItem, kids: Option<seq<int>>): Item {
    Item(p.id, p.author, p.commentCount, kids, p.points, p.time, p.title, p.text, p.postType,
         p.url, p.isDeleted, p.isDead)
  }

  /** `PopulatedItem.init` loses nothing but the kids list: every other field is copied. */
  lemma PopulatedItemKeepsFields(item: Item, index: int, children: seq<PopulatedItem>)
    ensures ItemOf(PopulatedItemFrom(item, index, children), item.kids) == item
  {
  }

  // --------------------------------------------------------------- categories

  /** `StoryCategory` (raw values "top", "best", "new", "ask", "show"). */
  datatype StoryCategory = Top | Best | New | Ask | Show

  /** `StoryOrder`: the order the list itself gives, or a search ordering. */
  datatype StoryOrder = Original | Search(searchType: AlgoliaEndpoint.SearchType)

  /** `StoryOrder.allCases` of both copies. */
  const ALL_STORY_ORDERS: seq<StoryOrder> :=
    [Original, Search(AlgoliaEndpoint.Best), Search(AlgoliaEndpoint.Recent)]

  const ORIGINAL_LABEL: string := "Original"

  /** `StoryOrder.label`. */
  function Label(order: StoryOrder): (r: string)
    ensures order.Original? ==> r == ORIGINAL_LABEL
    ensures order.Search? ==> r == AlgoliaEndpoint.SearchTypeRawValue(order.searchType)
  {
    match order
    case Original => ORIGINAL_LABEL
    case Search(t) => AlgoliaEndpoint.SearchTypeRawValue(t)
  }

  /** `allCases` lists every order exactly once, and the labels tell the orders apart. */
  lemma AllStoryOrdersComplete(o: StoryOrder, p: StoryOrder)
    ensures o in ALL_STORY_ORDERS
    ensures |ALL_STORY_ORDERS| == 3
    ensures forall i, j :: 0 <= i < j < |ALL_STORY_ORDERS| ==> ALL_STORY_ORDERS[i] != ALL_STORY_ORDERS[j]
    ensures Label(o) == Label(p) ==> o == p
  {
    if o.Search? {
      assert o.searchType == AlgoliaEndpoint.Best || o.searchType == AlgoliaEndpoint.Recent;
    }
  }

  // ------------------------------------------------------------------ fetches

  /** `fetchItem(_:offset:session:)`, the publisher in HackerNewsAPI.swift, once the response has come back:
      the status is checked, then the body decoded; whatever `offset` was asked for, the
      result is tagged with offset 0. */
  function FetchItem(offset: int, response: UrlResponse, decoded: Result<Item, string>): (r: Result<(int, Item), string>)
    requires response.Http?
    ensures r.Success? <==> Check(response).Pass? && decoded.Success?
    ensures r.Success? ==> r.value == (0, decoded.value)
  {
    match Check(response)
    case Fail(e) => Failure(e)
    case Pass =>
      match decoded
      case Success(item) => Success((0, item))
      case Failure(e) => Failure(e)
  }

  /** `fetchItem` of the Combine API, which does not look at the status at all: the decoded
      body, tagged with offset 0. */
  function FetchItemPub(offset: int, decoded: Result<Item, string>): (r: Result<(int, Item), string>)
    ensures r.Success? <==> decoded.Success?
    ensures r.Success? ==> r.value == (0, decoded.value)
  {
    match decoded
    case Success(item) => Success((0, item))
    case Failure(e) => Failure(e)
  }

  /** The `filter { $0.value > 1 }.keys` of the fan-out: the parents with more than one
      counted child. */
  function FanOutParentIds(counts: map<int, nat>): (r: set<int>)
    ensures forall k :: k in r <==> k in counts && counts[k] > 1
  {
    set k | k in counts && counts[k] > 1
  }

  /** The fan-out's `flatMap` of item fetches followed by `collect()`, given each fetch's
      outcome in the order they complete: the items when every fetch succeeded, otherwise
      the first failure, because a failing inner publisher fails the whole chain. */
  function CollectItems(outcomes: seq<Result<(int, Item), string>>): (r: Result<seq<Item>, string>)
    ensures r.Success? <==> forall k :: 0 <= k < |outcomes| ==> outcomes[k].Success?
    ensures r.Success? ==> |r.value| == |outcomes|
                           && forall k :: 0 <= k < |outcomes| ==> r.value[k] == outcomes[k].value.1
    ensures r.Failure? ==> exists k :: 0 <= k < |outcomes| && outcomes[k] == Failure(r.error)
  {
    if |outcomes| == 0 then Success([])
    else
      match outcomes[0]
      case Failure(e) => Failure(e)
      case Success((_, item)) =>
        match CollectItems(outcomes[1..])
        case Failure(e) =>
          assert outcomes[1..][0] == outcomes[1];
          Failure(e)
        case Success(items) => Success([item] + items)
  }
}
