/** The view model of HNClient/PostFetcher.swift. `fetchPost` marks the fetcher as
    fetching, cancels the previous subscription and subscribes to three zipped requests:
    the post from the search index, the items of its branching comments, and the story's
    own item for its top-level order. The sink later writes either the combined post or
    the failure.

    The network is not modelled: the subscription is a ticket, and its single delivery
    (the three outcomes) is the input of `Receive`. */
module PostFetching {
  import opened Wrappers
  import Posts
  import HackerNewsApi
  import AlgoliaEndpoint
  import Utilities

  /** The `map` closure on the zipped values: the root's children put in the order of the
      story item's kids, then `sortComments` with the fetched items. */
  function Combine(root: Posts.Post, items: seq<HackerNewsApi.Item>, topIds: seq<int>): (r: Posts.Post)
    ensures r.WithChildren(root.Children()) == root
    ensures Utilities.Shells(r.Children()) == Utilities.Shells(Utilities.SortToMatch(root.Children(), topIds, Utilities.PostId))
  {
    var np := root.WithChildren(Utilities.SortToMatch(root.Children(), topIds, Utilities.PostId));
    Utilities.SortPost(np, items)
  }

  /** The combined post holds the same comments as the fetched one, each with its own
      fields: only sibling order differs. */
  lemma CombineKeepsNodes(root: Posts.Post, items: seq<HackerNewsApi.Item>, topIds: seq<int>)
    ensures multiset(Utilities.FlatForest(Combine(root, items, topIds).Children(), Utilities.Shell))
            == multiset(Utilities.FlatForest(root.Children(), Utilities.Shell))
  {
    var sorted := Utilities.SortToMatch(root.Children(), topIds, Utilities.PostId);
    var np := root.WithChildren(sorted);
    Utilities.SortPostKeepsNodes(np, items);
    Utilities.FlatForestPermutation(sorted, root.Children(), Utilities.Shell);
  }

  /** When the story item lists every top-level comment, the combined post shows them in
      the story item's order. */
  lemma CombineOrdersTopLevel(root: Posts.Post, items: seq<HackerNewsApi.Item>, topIds: seq<int>)
    requires forall c :: c in root.Children() ==> c.id in topIds
    ensures Utilities.AllKnown(Combine(root, items, topIds).Children(), topIds, Utilities.PostId)
    ensures Utilities.RankSorted(Combine(root, items, topIds).Children(), topIds, Utilities.PostId)
  {
    var sorted := Utilities.SortToMatch(root.Children(), topIds, Utilities.PostId);
    assert Utilities.AllKnown(root.Children(), topIds, Utilities.PostId) by {
      forall c | c in root.Children() ensures Utilities.PostId(c) in topIds {
        assert Utilities.PostId(c) == c.id;
      }
    }
    Utilities.SortToMatchSorted(root.Children(), topIds, Utilities.PostId);
    Utilities.RankSortedOfShells(Combine(root, items, topIds).Children(), sorted, topIds);
  }

  /** The zip of the three requests: all three values, or a failure of one of them (the
      first in argument order when several fail). */
  function Zip3<A, B, C>(a: Result<A, string>, b: Result<B, string>, c: Result<C, string>): (r: Result<(A, B, C), string>)
    ensures r.Success? <==> a.Success? && b.Success? && c.Success?
    ensures r.Success? ==> r.value == (a.value, b.value, c.value)
    ensures r.Failure? ==> a == Failure(r.error) || b == Failure(r.error) || c == Failure(r.error)
  {
    if a.Failure? then Failure(a.error)
    else if b.Failure? then Failure(b.error)
    else if c.Failure? then Failure(c.error)
    else Success((a.value, b.value, c.value))
  }

  class PostFetcher {
    var post: Option<Posts.Post>
    var parentPost: Option<Posts.Post>
    var fetchStatus: AlgoliaEndpoint.FetchStatus
    /** The subscription `fetchCancellable` holds, while it can still deliver. */
    var inFlight: Option<nat>
    /** The ticket the next subscription gets. */
    var nextTicket: nat

    /** Every live subscription was handed out earlier. */
    predicate Valid()
      reads this
    {
      inFlight.Some? ==> inFlight.value < nextTicket
    }

    constructor ()
      ensures Valid()
      ensures post.None? && parentPost.None? && fetchStatus == AlgoliaEndpoint.Idle && inFlight.None?
    {
      post := None;
      parentPost := None;
      fetchStatus := AlgoliaEndpoint.Idle;
      inFlight := None;
      nextTicket := 0;
    }

    /** `fetchPost(id:parent:)`: the status becomes fetching and the previous
        subscription is cancelled; the new one is returned. `parent` changes nothing, and
        neither post slot is written yet. */
    method FetchPost(id: int, parent: bool) returns (ticket: nat)
      requires Valid()
      modifies this
      ensures Valid()
      ensures fetchStatus == AlgoliaEndpoint.Fetching
      ensures ticket == old(nextTicket) && nextTicket == old(nextTicket) + 1
      ensures inFlight == Some(ticket)
      ensures old(inFlight).Some? ==> old(inFlight) != inFlight
      ensures post == old(post) && parentPost == old(parentPost)
    {
      fetchStatus := AlgoliaEndpoint.Fetching;
      inFlight := None;
      ticket := nextTicket;
      nextTicket := nextTicket + 1;
      inFlight := Some(ticket);
    }

    /** The sink of subscription `ticket` receiving the zipped outcomes. A cancelled
        subscription delivers nothing. A live one delivers once: the combined post and
        idle on success, the failure reason with the post kept otherwise. `parentPost` is
        never written. */
    method Receive(ticket: nat, postOutcome: Result<Posts.Post, string>,
                   itemsOutcome: Result<seq<HackerNewsApi.Item>, string>,
                   rootItemOutcome: Result<(int, HackerNewsApi.Item), string>)
      requires Valid()
      modifies this
      ensures Valid()
      ensures nextTicket == old(nextTicket) && parentPost == old(parentPost)
      ensures old(inFlight) != Some(ticket) ==>
                post == old(post) && fetchStatus == old(fetchStatus) && inFlight == old(inFlight)
      ensures old(inFlight) == Some(ticket) ==> inFlight.None?
      ensures old(inFlight) == Some(ticket) ==>
                match Zip3(postOutcome, itemsOutcome, rootItemOutcome)
                case Success((p, items, root)) =>
                  post == Some(Combine(p, items, root.1.ChildIds())) && fetchStatus == AlgoliaEndpoint.Idle
                case Failure(e) =>
                  post == old(post) && fetchStatus == AlgoliaEndpoint.Failed(e)
    {
      if inFlight == Some(ticket) {
        inFlight := None;
        match Zip3(postOutcome, itemsOutcome, rootItemOutcome)
        case Success((p, items, root)) =>
          post := Some(Combine(p, items, root.1.ChildIds()));
          fetchStatus := AlgoliaEndpoint.Idle;
        case Failure(e) =>
          fetchStatus := AlgoliaEndpoint.Failed(e);
      }
    }
  }
}
