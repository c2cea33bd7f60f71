/** The comment-tree helpers of HNClient/Utilities.swift (`buildCommentTree` also appears,
    identically, in HNClient/AlgoliaFetch.swift): building the tree from the flat list of
    comment hits, `sortToMatch`, the level-skipping `sortComments`, the pre-order
    `treeFlatMap`, and the `Collection` subscript by id. */
module Utilities {
  import opened Wrappers
  import opened Strings
  import SearchResults
  import Posts
  import HackerNewsApi

  type Comment = SearchResults.CommentSearchResult
  type CommentPost = Posts.CommentPost

  // -------------------------------------------------------------- lookups by id

  /** `firstIndex(where: { key($0) == k })`. */
  function FirstIndexWhere<T, K(==)>(xs: seq<T>, key: T -> K, k: K): (r: Option<nat>)
    ensures r.Some? ==> r.value < |xs| && key(xs[r.value]) == k
    ensures r.Some? ==> forall j :: 0 <= j < r.value ==> key(xs[j]) != k
    ensures r.None? ==> forall j :: 0 <= j < |xs| ==> key(xs[j]) != k
  {
    if |xs| == 0 then None
    else if key(xs[0]) == k then Some(0)
    else
      match FirstIndexWhere(xs[1..], key, k)
      case None => None
      case Some(i) => Some(i + 1)
  }

  /** `Collection[id]` for identifiable elements: `first(where:)!`, so some element must
      have the id. The result is a match that no other match precedes. */
  function ElementWithId<T, K(==)>(xs: seq<T>, idOf: T -> K, id: K): (r: T)
    requires exists k :: 0 <= k < |xs| && idOf(xs[k]) == id
    ensures idOf(r) == id && r in xs
    ensures forall j :: 0 <= j < |xs| && idOf(xs[j]) == id ==> exists i :: 0 <= i <= j && xs[i] == r
  {
    var i := FirstIndexWhere(xs, idOf, id);
    assert i.Some?;
    xs[i.value]
  }

  /** `ids.firstIndex(of: id)`. */
  function FirstIndexOf(ids: seq<int>, id: int): (r: Option<nat>)
    ensures r.None? <==> id !in ids
    ensures r.Some? ==> r.value < |ids| && ids[r.value] == id && id !in ids[..r.value]
  {
    if |ids| == 0 then None
    else if ids[0] == id then Some(0)
    else
      match FirstIndexOf(ids[1..], id)
      case None => None
      case Some(i) =>
        assert ids[..i + 1] == [ids[0]] + ids[1..][..i];
        Some(i + 1)
  }

  // ---------------------------------------------------------------- sortToMatch

  /** The comparator of `sortToMatch`: `a` goes before `b` only when both ids occur in
      `ids` and `a`'s first occurrence is earlier. It is false as soon as either id is
      missing, so it is not a strict weak order when some ids are missing. */
  function Precedes<T>(ids: seq<int>, idOf: T -> int, a: T, b: T): (r: bool)
    ensures idOf(a) !in ids || idOf(b) !in ids ==> !r
    ensures r ==> idOf(a) != idOf(b)
  {
    var ai, bi := FirstIndexOf(ids, idOf(a)), FirstIndexOf(ids, idOf(b));
    ai.Some? && bi.Some? && ai.value < bi.value
  }

  /** One step of `sorted(by:)`: the new element moves left past every element it
      precedes, as the standard library's insertion sort does. */
  function InsertBack<T>(sorted: seq<T>, x: T, ids: seq<int>, idOf: T -> int): (r: seq<T>)
    ensures |r| == |sorted| + 1
    ensures multiset(r) == multiset(sorted) + multiset{x}
    decreases |sorted|
  {
    if |sorted| == 0 then [x]
    else
      var init, last := sorted[..|sorted| - 1], sorted[|sorted| - 1];
      assert sorted == init + [last];
      if Precedes(ids, idOf, x, last) then InsertBack(init, x, ids, idOf) + [last]
      else sorted + [x]
  }

  /** `sortToMatch(items, ids)`: `items.sorted(by:)` with the comparator above. The
      result is a permutation of the items. */
  function SortToMatch<T>(items: seq<T>, ids: seq<int>, idOf: T -> int): (r: seq<T>)
    ensures |r| == |items|
    ensures multiset(r) == multiset(items)
    decreases |items|
  {
    if |items| == 0 then []
    else
      var init := items[..|items| - 1];
      assert items == init + [items[|items| - 1]];
      InsertBack(SortToMatch(init, ids, idOf), items[|items| - 1], ids, idOf)
  }

  /** Every item's id occurs in `ids`. */
  ghost predicate AllKnown<T>(items: seq<T>, ids: seq<int>, idOf: T -> int) {
    forall x :: x in items ==> idOf(x) in ids
  }

  /** The position of an id's first occurrence in `ids`. */
  function IdRank(ids: seq<int>, id: int): nat
    requires id in ids
  {
    FirstIndexOf(ids, id).value
  }

  /** Ordered by first index in `ids`. */
  ghost predicate RankSorted<T>(s: seq<T>, ids: seq<int>, idOf: T -> int)
    requires AllKnown(s, ids, idOf)
  {
    forall i, j :: 0 <= i < j < |s| ==> IdRank(ids, idOf(s[i])) <= IdRank(ids, idOf(s[j]))
  }

  /** For known ids the comparator is the order of first indices. */
  lemma PrecedesByRank<T>(ids: seq<int>, idOf: T -> int, a: T, b: T)
    requires idOf(a) in ids && idOf(b) in ids
    ensures Precedes(ids, idOf, a, b) <==> IdRank(ids, idOf(a)) < IdRank(ids, idOf(b))
  {
  }

  lemma SortedSnoc<T>(front: seq<T>, last: T, ids: seq<int>, idOf: T -> int)
    requires AllKnown(front, ids, idOf) && idOf(last) in ids
    requires RankSorted(front, ids, idOf)
    requires forall i :: 0 <= i < |front| ==> IdRank(ids, idOf(front[i])) <= IdRank(ids, idOf(last))
    ensures AllKnown(front + [last], ids, idOf)
    ensures RankSorted(front + [last], ids, idOf)
  {
    var r := front + [last];
    forall e | e in r ensures idOf(e) in ids {
      if e != last {
        assert e in front;
      }
    }
    forall i, j | 0 <= i < j < |r| ensures IdRank(ids, idOf(r[i])) <= IdRank(ids, idOf(r[j])) {
      assert r[i] == front[i];
      if j < |front| {
        assert r[j] == front[j];
      }
    }
  }

  lemma {:induction false} InsertBackSorted<T>(s: seq<T>, x: T, ids: seq<int>, idOf: T -> int)
    requires AllKnown(s, ids, idOf) && idOf(x) in ids
    requires RankSorted(s, ids, idOf)
    ensures AllKnown(InsertBack(s, x, ids, idOf), ids, idOf)
    ensures RankSorted(InsertBack(s, x, ids, idOf), ids, idOf)
    decreases |s|
  {
    if |s| > 0 {
      var init, last := s[..|s| - 1], s[|s| - 1];
      SortedInit(s, ids, idOf);
      PrecedesByRank(ids, idOf, x, last);
      if Precedes(ids, idOf, x, last) {
        InsertBackSorted(init, x, ids, idOf);
        var front := InsertBack(init, x, ids, idOf);
        InsertedBelowLast(s, x, front, ids, idOf);
        SortedSnoc(front, last, ids, idOf);
        assert InsertBack(s, x, ids, idOf) == front + [last];
      } else {
        SortedBelow(s, x, ids, idOf);
        SortedSnoc(s, x, ids, idOf);
        assert InsertBack(s, x, ids, idOf) == s + [x];
      }
    }
  }

  /** All but the last element of a sorted, known list are sorted and known, and the
      last element is known. */
  lemma SortedInit<T>(s: seq<T>, ids: seq<int>, idOf: T -> int)
    requires |s| > 0 && AllKnown(s, ids, idOf) && RankSorted(s, ids, idOf)
    ensures idOf(s[|s| - 1]) in ids
    ensures AllKnown(s[..|s| - 1], ids, idOf) && RankSorted(s[..|s| - 1], ids, idOf)
  {
    var init := s[..|s| - 1];
    assert s[|s| - 1] in s;
    forall e | e in init ensures idOf(e) in ids {
      var k :| 0 <= k < |init| && init[k] == e;
      assert s[k] == e;
    }
    forall i, j | 0 <= i < j < |init| ensures IdRank(ids, idOf(init[i])) <= IdRank(ids, idOf(init[j])) {
      assert init[i] == s[i] && init[j] == s[j];
    }
  }

  /** Inserting an element ranked below the last one into the rest of a sorted list
      leaves everything ranked at most as the last one. */
  lemma InsertedBelowLast<T>(s: seq<T>, x: T, front: seq<T>, ids: seq<int>, idOf: T -> int)
    requires |s| > 0 && AllKnown(s, ids, idOf) && RankSorted(s, ids, idOf) && idOf(x) in ids
    requires idOf(s[|s| - 1]) in ids
    requires multiset(front) == multiset(s[..|s| - 1]) + multiset{x}
    requires IdRank(ids, idOf(x)) < IdRank(ids, idOf(s[|s| - 1]))
    ensures forall i :: 0 <= i < |front| ==>
              idOf(front[i]) in ids && IdRank(ids, idOf(front[i])) <= IdRank(ids, idOf(s[|s| - 1]))
  {
    var init, last := s[..|s| - 1], s[|s| - 1];
    assert last in s;
    forall i | 0 <= i < |front| ensures idOf(front[i]) in ids && IdRank(ids, idOf(front[i])) <= IdRank(ids, idOf(last)) {
      assert front[i] in multiset(front);
      if front[i] != x {
        assert front[i] in multiset(init);
        var k :| 0 <= k < |init| && init[k] == front[i];
        assert s[k] == init[k] && s[k] in s;
      }
    }
  }

  /** Every element of a sorted list is ranked at most as an element ranked at least as
      its last. */
  lemma SortedBelow<T>(s: seq<T>, x: T, ids: seq<int>, idOf: T -> int)
    requires |s| > 0 && AllKnown(s, ids, idOf) && RankSorted(s, ids, idOf) && idOf(x) in ids
    requires idOf(s[|s| - 1]) in ids
    requires IdRank(ids, idOf(s[|s| - 1])) <= IdRank(ids, idOf(x))
    ensures forall i :: 0 <= i < |s| ==> IdRank(ids, idOf(s[i])) <= IdRank(ids, idOf(x))
  {
    forall i | 0 <= i < |s| ensures IdRank(ids, idOf(s[i])) <= IdRank(ids, idOf(x)) {
      assert s[i] in s && s[|s| - 1] in s;
      if i < |s| - 1 {
        assert IdRank(ids, idOf(s[i])) <= IdRank(ids, idOf(s[|s| - 1]));
      }
    }
  }

  /** When every id is known, `sortToMatch` orders the items by each id's first index. */
  lemma {:induction false} SortToMatchSorted<T>(items: seq<T>, ids: seq<int>, idOf: T -> int)
    requires AllKnown(items, ids, idOf)
    ensures AllKnown(SortToMatch(items, ids, idOf), ids, idOf)
    ensures RankSorted(SortToMatch(items, ids, idOf), ids, idOf)
    decreases |items|
  {
    var r := SortToMatch(items, ids, idOf);
    assert forall e :: e in r ==> e in multiset(items);
    if |items| > 0 {
      var init := items[..|items| - 1];
      assert forall e :: e in init ==> e in items;
      SortToMatchSorted(init, ids, idOf);
      assert items[|items| - 1] in items;
      InsertBackSorted(SortToMatch(init, ids, idOf), items[|items| - 1], ids, idOf);
    }
  }

  /** No later element precedes an earlier one. */
  predicate NoInversion<T>(s: seq<T>, ids: seq<int>, idOf: T -> int) {
    forall i, j :: 0 <= i < j < |s| ==> !Precedes(ids, idOf, s[j], s[i])
  }

  /** A list with no inversion comes back unchanged. */
  lemma {:induction false} SortToMatchOfNoInversion<T>(s: seq<T>, ids: seq<int>, idOf: T -> int)
    requires NoInversion(s, ids, idOf)
    ensures SortToMatch(s, ids, idOf) == s
    decreases |s|
  {
    if |s| > 0 {
      var init := s[..|s| - 1];
      assert NoInversion(init, ids, idOf) by {
        forall i, j | 0 <= i < j < |init| ensures !Precedes(ids, idOf, init[j], init[i]) {
          assert init[j] == s[j] && init[i] == s[i];
        }
      }
      SortToMatchOfNoInversion(init, ids, idOf);
      assert s == init + [s[|s| - 1]];
      if |init| > 0 {
        assert !Precedes(ids, idOf, s[|s| - 1], s[|s| - 2]);
      }
    }
  }

  /** With every id known, sorting twice is sorting once. */
  lemma SortToMatchIdempotent<T>(items: seq<T>, ids: seq<int>, idOf: T -> int)
    requires AllKnown(items, ids, idOf)
    ensures SortToMatch(SortToMatch(items, ids, idOf), ids, idOf) == SortToMatch(items, ids, idOf)
  {
    var r := SortToMatch(items, ids, idOf);
    SortToMatchSorted(items, ids, idOf);
    assert NoInversion(r, ids, idOf) by {
      forall i, j | 0 <= i < j < |r| ensures !Precedes(ids, idOf, r[j], r[i]) {
        assert IdRank(ids, idOf(r[i])) <= IdRank(ids, idOf(r[j]));
      }
    }
    SortToMatchOfNoInversion(r, ids, idOf);
  }

  /** When no item's id occurs in `ids` (for instance when `ids` is empty) the order is kept. */
  lemma SortToMatchNoneKnown<T>(items: seq<T>, ids: seq<int>, idOf: T -> int)
    requires forall x :: x in items ==> idOf(x) !in ids
    ensures SortToMatch(items, ids, idOf) == items
  {
    assert NoInversion(items, ids, idOf) by {
      forall i, j | 0 <= i < j < |items| ensures !Precedes(ids, idOf, items[j], items[i]) {
        assert items[j] in items;
      }
    }
    SortToMatchOfNoInversion(items, ids, idOf);
  }

  function Identity(n: int): int {
    n
  }

  /** With an unknown id between them, two known ids are not put in order: sorting
      5, 3, 9 to match [9, 5] leaves the list as it is, although 9 is listed before 5. */
  lemma SortToMatchSkipsKnownPair()
    ensures Precedes([9, 5], Identity, 9, 5)
    ensures SortToMatch([5, 3, 9], [9, 5], Identity) == [5, 3, 9]
  {
    var ids := [9, 5];
    assert Identity(3) == 3 && Identity(5) == 5 && Identity(9) == 9;
    assert FirstIndexOf(ids, 3).None?;
    assert SortToMatch([5], ids, Identity) == [5] by {
      assert [5][..0] == [];
    }
    assert InsertBack([5], 3, ids, Identity) == [5, 3] by {
      assert !Precedes(ids, Identity, 3, 5);
    }
    assert SortToMatch([5, 3], ids, Identity) == [5, 3] by {
      assert [5, 3][..1] == [5];
    }
    assert InsertBack([5, 3], 9, ids, Identity) == [5, 3, 9] by {
      assert !Precedes(ids, Identity, 9, 3);
      assert [5, 3][..1] == [5];
    }
    assert [5, 3, 9][..2] == [5, 3];
  }

  // --------------------------------------------------------------- treeFlatMap

  /** Nodes in a comment tree. */
  function Size(c: CommentPost): nat
    decreases c
  {
    1 + SumSizes(c.children)
  }

  function SumSizes(cs: seq<CommentPost>): nat
    decreases cs
  {
    if |cs| == 0 then 0 else Size(cs[0]) + SumSizes(cs[1..])
  }

  /** `treeFlatMap(item, value:, children: \.children)`: the pre-order listing of the
      tree's values, one per node, the root's first. */
  function TreeFlatMap<V>(item: CommentPost, value: CommentPost -> V): (r: seq<V>)
    ensures |r| == Size(item)
    ensures r[0] == value(item)
    decreases item
  {
    [value(item)] + FlatForest(item.children, value)
  }

  /** The `joined()` flattenings of a list of trees. */
  function FlatForest<V>(cs: seq<CommentPost>, value: CommentPost -> V): (r: seq<V>)
    ensures |r| == SumSizes(cs)
    decreases cs
  {
    if |cs| == 0 then [] else TreeFlatMap(cs[0], value) + FlatForest(cs[1..], value)
  }

  lemma {:induction false} FlatForestAppend<V>(a: seq<CommentPost>, b: seq<CommentPost>, value: CommentPost -> V)
    ensures FlatForest(a + b, value) == FlatForest(a, value) + FlatForest(b, value)
    decreases |a|
  {
    if |a| == 0 {
      assert a + b == b;
    } else {
      assert (a + b)[0] == a[0] && (a + b)[1..] == a[1..] + b;
      FlatForestAppend(a[1..], b, value);
    }
  }

  /** Reordering a list of trees reorders its flattening: the values keep their multiplicities. */
  lemma {:induction false} FlatForestPermutation<V>(a: seq<CommentPost>, b: seq<CommentPost>, value: CommentPost -> V)
    requires multiset(a) == multiset(b)
    ensures multiset(FlatForest(a, value)) == multiset(FlatForest(b, value))
    decreases |a|
  {
    if |a| == 0 {
      assert |multiset(b)| == 0;
    } else {
      var x := a[0];
      assert x in multiset(b);
      var k :| 0 <= k < |b| && b[k] == x;
      var rest := b[..k] + b[k + 1..];
      RemoveOne(a, b, k);
      FlatForestPermutation(a[1..], rest, value);
      FlatForestSplit(b, k, value);
      FlatForestAppend(b[..k], b[k + 1..], value);
      MultisetRegroup(FlatForest(a, value), FlatForest(b, value), FlatForest(rest, value), FlatForest(a[1..], value),
                      FlatForest(b[..k], value), TreeFlatMap(x, value), FlatForest(b[k + 1..], value));
    }
  }

  lemma MultisetRegroup<V>(fa: seq<V>, fb: seq<V>, fr: seq<V>, fa1: seq<V>, p: seq<V>, t: seq<V>, q: seq<V>)
    requires fb == p + (t + q) && fr == p + q && fa == t + fa1 && multiset(fa1) == multiset(fr)
    ensures multiset(fa) == multiset(fb)
  {
  }

  /** Taking the first element of `a` out of `b`, where it sits at `k`, leaves two
      lists with equal multisets. */
  lemma RemoveOne<T>(a: seq<T>, b: seq<T>, k: nat)
    requires |a| > 0 && k < |b| && b[k] == a[0] && multiset(a) == multiset(b)
    ensures multiset(a[1..]) == multiset(b[..k] + b[k + 1..])
  {
    var rest := b[..k] + b[k + 1..];
    assert b == b[..k] + [b[k]] + b[k + 1..];
    assert a == [a[0]] + a[1..];
    assert multiset(b) == multiset(b[..k]) + multiset{b[k]} + multiset(b[k + 1..]);
    assert multiset(rest) == multiset(b[..k]) + multiset(b[k + 1..]);
    assert multiset(rest) == multiset(b) - multiset{b[k]};
    assert multiset(a[1..]) == multiset(a) - multiset{a[0]};
  }

  /** The flattening of `b` is the flattening before `k`, then the tree at `k`, then the
      flattening after `k`. */
  lemma FlatForestSplit<V>(b: seq<CommentPost>, k: nat, value: CommentPost -> V)
    requires k < |b|
    ensures FlatForest(b, value)
            == FlatForest(b[..k], value) + (TreeFlatMap(b[k], value) + FlatForest(b[k + 1..], value))
  {
    SplitAround(b, k);
    FlatForestAround(b[..k], b[k], b[k + 1..], value);
  }

  lemma SplitAround<T>(b: seq<T>, k: nat)
    requires k < |b|
    ensures b == b[..k] + ([b[k]] + b[k + 1..])
  {
  }

  lemma FlatForestAround<V>(front: seq<CommentPost>, x: CommentPost, back: seq<CommentPost>, value: CommentPost -> V)
    ensures FlatForest(front + ([x] + back), value) == FlatForest(front, value) + (TreeFlatMap(x, value) + FlatForest(back, value))
  {
    FlatForestAppend(front, [x] + back, value);
    FlatForestAppend([x], back, value);
    FlatForestSingleton(x, value);
  }

  lemma FlatForestSingleton<V>(x: CommentPost, value: CommentPost -> V)
    ensures FlatForest([x], value) == TreeFlatMap(x, value)
  {
    assert [x][1..] == [];
  }

  // -------------------------------------------------------------- sortComments

  /** A node with its own fields only. */
  function Shell(c: CommentPost): CommentPost {
    c.(children := [])
  }

  function Shells(cs: seq<CommentPost>): (r: seq<CommentPost>)
    ensures |r| == |cs|
  {
    seq(|cs|, k requires 0 <= k < |cs| => Shell(cs[k]))
  }

  /** Lists with the same shells have the same ids in the same places, so they are
      ordered alike. */
  lemma RankSortedOfShells(a: seq<CommentPost>, b: seq<CommentPost>, ids: seq<int>)
    requires Shells(a) == Shells(b)
    requires AllKnown(b, ids, PostId) && RankSorted(b, ids, PostId)
    ensures AllKnown(a, ids, PostId) && RankSorted(a, ids, PostId)
  {
    forall i | 0 <= i < |a| ensures PostId(a[i]) == PostId(b[i]) && PostId(a[i]) in ids {
      assert Shells(a)[i] == Shells(b)[i];
      assert b[i] in b;
    }
    forall x | x in a ensures PostId(x) in ids {
      var i :| 0 <= i < |a| && a[i] == x;
    }
  }

  function ItemId(item: HackerNewsApi.Item): int {
    item.id
  }

  function PostId(c: CommentPost): int {
    c.id
  }

  /** The list a direct child's children are rebuilt from: sorted to match the first
      fetched item with the child's id, or kept as it is when no item has that id. */
  function Reordered(child: CommentPost, items: seq<HackerNewsApi.Item>): (r: seq<CommentPost>)
    ensures multiset(r) == multiset(child.children)
  {
    match FirstIndexWhere(items, ItemId, child.id)
    case Some(k) => SortToMatch(child.children, items[k].ChildIds(), PostId)
    case None => child.children
  }

  /** `sortComments(post:sortablePosts:)` on a comment: the node and the order of its
      direct children are untouched; each direct child gets its children rebuilt by
      `SortChild`. */
  function SortComments(c: CommentPost, items: seq<HackerNewsApi.Item>): (r: CommentPost)
    ensures Shell(r) == Shell(c)
    ensures Shells(r.children) == Shells(c.children)
    decreases c
  {
    c.(children := SortDirectChildren(c.children, items))
  }

  /** The `children.map { child in … }` of `sortComments`. */
  function SortDirectChildren(cs: seq<CommentPost>, items: seq<HackerNewsApi.Item>): (r: seq<CommentPost>)
    ensures Shells(r) == Shells(cs)
    decreases cs
  {
    seq(|cs|, k requires 0 <= k < |cs| => SortChild(cs[k], items))
  }

  /** One direct child: its children become its reordered children, on each of which
      `sortComments` recurses, so the next level down is the next list reordered. */
  function SortChild(child: CommentPost, items: seq<HackerNewsApi.Item>): (r: CommentPost)
    ensures Shell(r) == Shell(child)
    ensures Shells(r.children) == Shells(Reordered(child, items))
    decreases child
  {
    var rs := Reordered(child, items);
    child.(children := seq(|rs|, k requires 0 <= k < |rs| =>
      assert rs[k] in multiset(rs);
      assert rs[k] in child.children;
      SortComments(rs[k], items)))
  }

  /** `sortComments` applied to the root post of a thread: the root keeps its own fields
      and the order of its direct children; each direct child keeps its fields, and its
      children come in the order `Reordered` gives them. */
  function SortPost(p: Posts.Post, items: seq<HackerNewsApi.Item>): (r: Posts.Post)
    ensures r.WithChildren(p.Children()) == p
    ensures Shells(r.Children()) == Shells(p.Children())
    ensures forall k :: 0 <= k < |p.Children()| ==>
              Shells(r.Children()[k].children) == Shells(Reordered(p.Children()[k], items))
  {
    p.WithChildren(SortDirectChildren(p.Children(), items))
  }

  /** The children of a direct child of a node whose first matching item exists are those
      of `sortToMatch`, else they keep their order; both then rebuilt further down. */
  lemma SortCommentsSecondLevel(c: CommentPost, items: seq<HackerNewsApi.Item>, i: nat)
    requires i < |c.children|
    ensures |SortComments(c, items).children| == |c.children|
    ensures FirstIndexWhere(items, ItemId, c.children[i].id).None? ==>
              Shells(SortComments(c, items).children[i].children) == Shells(c.children[i].children)
    ensures FirstIndexWhere(items, ItemId, c.children[i].id).Some? ==>
              Shells(SortComments(c, items).children[i].children)
              == Shells(SortToMatch(c.children[i].children,
                                    items[FirstIndexWhere(items, ItemId, c.children[i].id).value].ChildIds(),
                                    PostId))
  {
    assert SortComments(c, items).children[i] == SortChild(c.children[i], items);
  }

  /** The level-skipping quirk: the lists one level further down are never reordered.
      Every node two levels below `c` in the result stands for a grandchild of `c` with
      the same fields and its children in their original order. */
  lemma SortCommentsKeepsThirdLevel(c: CommentPost, items: seq<HackerNewsApi.Item>, i: nat, j: nat)
    requires i < |SortComments(c, items).children|
    requires j < |SortComments(c, items).children[i].children|
    ensures exists g0 :: g0 in c.children[i].children
                         && Shell(g0) == Shell(SortComments(c, items).children[i].children[j])
                         && Shells(g0.children) == Shells(SortComments(c, items).children[i].children[j].children)
  {
    var child := c.children[i];
    var rs := Reordered(child, items);
    assert SortComments(c, items).children[i] == SortChild(child, items);
    var g := SortComments(c, items).children[i].children[j];
    assert g == SortComments(rs[j], items);
    assert rs[j] in multiset(rs);
  }

  /** `sortComments` keeps every node of the tree with its own fields, with multiplicity:
      only sibling order changes. */
  lemma {:induction false} SortCommentsKeepsNodes(c: CommentPost, items: seq<HackerNewsApi.Item>)
    ensures multiset(TreeFlatMap(SortComments(c, items), Shell)) == multiset(TreeFlatMap(c, Shell))
    ensures Size(SortComments(c, items)) == Size(c)
    decreases c
  {
    SortDirectChildrenKeepsNodes(c.children, items);
    var r := SortComments(c, items);
    assert TreeFlatMap(r, Shell) == [Shell(r)] + FlatForest(r.children, Shell);
    assert |multiset(TreeFlatMap(r, Shell))| == |multiset(TreeFlatMap(c, Shell))|;
  }

  lemma {:induction false} SortDirectChildrenKeepsNodes(cs: seq<CommentPost>, items: seq<HackerNewsApi.Item>)
    ensures multiset(FlatForest(SortDirectChildren(cs, items), Shell)) == multiset(FlatForest(cs, Shell))
    decreases cs
  {
    if |cs| > 0 {
      var r := SortDirectChildren(cs, items);
      assert r[0] == SortChild(cs[0], items);
      assert r[1..] == SortDirectChildren(cs[1..], items);
      SortChildKeepsNodes(cs[0], items);
      SortDirectChildrenKeepsNodes(cs[1..], items);
    }
  }

  lemma {:induction false} SortChildKeepsNodes(child: CommentPost, items: seq<HackerNewsApi.Item>)
    ensures multiset(TreeFlatMap(SortChild(child, items), Shell)) == multiset(TreeFlatMap(child, Shell))
    decreases child, 1
  {
    var rs := Reordered(child, items);
    var r := SortChild(child, items);
    forall x | x in rs ensures x in child.children {
      assert x in multiset(rs);
    }
    SortEachKeepsNodes(rs, child, items);
    assert r.children == SortEach(rs, items);
    FlatForestPermutation(rs, child.children, Shell);
  }

  /** `SortComments` on each tree of a list. */
  function SortEach(rs: seq<CommentPost>, items: seq<HackerNewsApi.Item>): seq<CommentPost> {
    seq(|rs|, k requires 0 <= k < |rs| => SortComments(rs[k], items))
  }

  lemma {:induction false} SortEachKeepsNodes(rs: seq<CommentPost>, parent: CommentPost, items: seq<HackerNewsApi.Item>)
    requires forall x :: x in rs ==> x in parent.children
    ensures multiset(FlatForest(SortEach(rs, items), Shell)) == multiset(FlatForest(rs, Shell))
    decreases parent, 0, |rs|
  {
    if |rs| > 0 {
      assert rs[0] in rs;
      var r := SortEach(rs, items);
      assert r[0] == SortComments(rs[0], items);
      assert r[1..] == SortEach(rs[1..], items);
      SortCommentsKeepsNodes(rs[0], items);
      assert forall x :: x in rs[1..] ==> x in rs;
      SortEachKeepsNodes(rs[1..], parent, items);
    }
  }

  /** The combine step's `sortComments` on the root keeps every comment of the thread. */
  lemma SortPostKeepsNodes(p: Posts.Post, items: seq<HackerNewsApi.Item>)
    ensures multiset(FlatForest(SortPost(p, items).Children(), Shell)) == multiset(FlatForest(p.Children(), Shell))
  {
    SortDirectChildrenKeepsNodes(p.Children(), items);
  }

  // ---------------------------------------------------------- buildCommentTree

  /** The `filter { $0.parentId == id }`: the comments replying to `id`, in their order. */
  function ChildrenOf(cs: seq<Comment>, id: int): (r: seq<Comment>)
    ensures |r| <= |cs|
    ensures forall c :: c in r <==> c in cs && c.parentId == Some(id)
  {
    if |cs| == 0 then []
    else
      assert cs == [cs[0]] + cs[1..];
      (if cs[0].parentId == Some(id) then [cs[0]] else []) + ChildrenOf(cs[1..], id)
  }

  /** The filter keeps relative order: it distributes over concatenation. */
  lemma {:induction false} ChildrenOfAppend(a: seq<Comment>, b: seq<Comment>, id: int)
    ensures ChildrenOf(a + b, id) == ChildrenOf(a, id) + ChildrenOf(b, id)
    decreases |a|
  {
    if |a| == 0 {
      assert a + b == b;
    } else {
      assert (a + b)[0] == a[0] && (a + b)[1..] == a[1..] + b;
      ChildrenOfAppend(a[1..], b, id);
    }
  }

  /** Every comment has a numeric `objectID`, as `Int(objectID)!` needs. */
  predicate AllNumeric(cs: seq<Comment>) {
    forall c :: c in cs ==> ParseInt(c.objectID).Some?
  }

  /** `rank` strictly decreases from each parent to its replies: the parent links have no
      cycle, which is what makes the recursion of `buildCommentTree` stop. */
  predicate RankedBy(cs: seq<Comment>, rank: int -> nat) {
    AllNumeric(cs) && forall c :: c in cs && c.parentId.Some? ==> rank(c.Id()) < rank(c.parentId.value)
  }

  /** A comment replying to itself admits no rank: on such input the source recurses forever. */
  lemma SelfReplyHasNoRank(cs: seq<Comment>, c: Comment, rank: int -> nat)
    requires c in cs && ParseInt(c.objectID).Some? && c.parentId == Some(c.Id())
    ensures !RankedBy(cs, rank)
  {
  }

  /** `buildCommentTree(id, comments:)`: one node per reply to `id`, in the order of the
      comments; each node is made from its comment, and its children are the tree built
      from its own id. */
  function BuildCommentTree(id: int, cs: seq<Comment>, ghost rank: int -> nat): (r: seq<CommentPost>)
    requires RankedBy(cs, rank)
    ensures |r| == |ChildrenOf(cs, id)|
    ensures forall k :: 0 <= k < |r| ==> r[k].id == ChildrenOf(cs, id)[k].Id()
    ensures forall k :: 0 <= k < |r| ==> Shell(r[k]) == Shell(Posts.CommentPostFrom(ChildrenOf(cs, id)[k], []))
    ensures forall k :: 0 <= k < |r| ==> r[k].children == BuildCommentTree(r[k].id, cs, rank)
    decreases rank(id)
  {
    var kids := ChildrenOf(cs, id);
    seq(|kids|, k requires 0 <= k < |kids| =>
      assert kids[k] in kids;
      Posts.CommentPostFrom(kids[k], BuildCommentTree(kids[k].Id(), cs, rank)))
  }

  /** Some comment with id `id` replies to `parent`. */
  ghost predicate IsReply(cs: seq<Comment>, id: int, parent: int) {
    exists c :: c in cs && ParseInt(c.objectID) == Some(id) && c.parentId == Some(parent)
  }

  /** At every depth, each node stands for a reply to the node above it. */
  ghost predicate Linked(nodes: seq<CommentPost>, parent: int, cs: seq<Comment>)
    decreases nodes
  {
    forall k :: 0 <= k < |nodes| ==> IsReply(cs, nodes[k].id, parent) && Linked(nodes[k].children, nodes[k].id, cs)
  }

  lemma {:induction false} BuildCommentTreeLinked(id: int, cs: seq<Comment>, rank: int -> nat)
    requires RankedBy(cs, rank)
    ensures Linked(BuildCommentTree(id, cs, rank), id, cs)
    decreases rank(id)
  {
    var r := BuildCommentTree(id, cs, rank);
    var kids := ChildrenOf(cs, id);
    forall k | 0 <= k < |r|
      ensures IsReply(cs, r[k].id, id) && Linked(r[k].children, r[k].id, cs)
    {
      assert kids[k] in kids;
      BuildCommentTreeLinked(kids[k].Id(), cs, rank);
    }
  }

  // ------------------------------------------- which comments the tree holds

  /** No two comments share an `objectID` value. */
  predicate DistinctIds(cs: seq<Comment>) {
    forall i, j :: 0 <= i < |cs| && 0 <= j < |cs| && i != j ==> ParseInt(cs[i].objectID) != ParseInt(cs[j].objectID)
  }

  /** `chain` walks down the reply links from `id`: its first comment replies to `id`,
      and the rest is a chain from that comment. */
  ghost predicate ReplyChain(cs: seq<Comment>, chain: seq<Comment>, id: int)
    decreases |chain|
  {
    && |chain| > 0
    && chain[0] in cs
    && chain[0].parentId == Some(id)
    && ParseInt(chain[0].objectID).Some?
    && (|chain| > 1 ==> ReplyChain(cs, chain[1..], chain[0].Id()))
  }

  /** A reply chain ends at one of the comments. */
  lemma {:induction false} ChainEndInComments(cs: seq<Comment>, chain: seq<Comment>, id: int)
    requires ReplyChain(cs, chain, id)
    ensures chain[|chain| - 1] in cs
    decreases |chain|
  {
    if |chain| > 1 {
      ChainEndInComments(cs, chain[1..], chain[0].Id());
      assert chain[1..][|chain| - 2] == chain[|chain| - 1];
    }
  }

  /** Following parent links up from `c` leads to `id`. */
  ghost predicate Descends(cs: seq<Comment>, c: Comment, id: int) {
    exists chain :: ReplyChain(cs, chain, id) && chain[|chain| - 1] == c
  }

  /** The ids of the comments that descend from `id`. */
  ghost function DescendantIds(cs: seq<Comment>, id: int): set<int> {
    set c | c in cs && ParseInt(c.objectID).Some? && Descends(cs, c, id) :: c.Id()
  }

  /** The ids below `id` read off the parent links alone, reply by reply: a reply's id,
      then the ids below it. */
  ghost function ReplyIds(id: int, cs: seq<Comment>, rank: int -> nat): seq<int>
    requires RankedBy(cs, rank)
    decreases rank(id), 1, 0
  {
    RepliesIds(ChildrenOf(cs, id), id, cs, rank)
  }

  ghost function RepliesIds(kids: seq<Comment>, id: int, cs: seq<Comment>, rank: int -> nat): seq<int>
    requires RankedBy(cs, rank) && forall c :: c in kids ==> c in cs && c.parentId == Some(id)
    decreases rank(id), 0, |kids|
  {
    if kids == [] then []
    else
      assert kids[0] in kids;
      [kids[0].Id()] + ReplyIds(kids[0].Id(), cs, rank) + RepliesIds(kids[1..], id, cs, rank)
  }

  predicate NoDuplicates(s: seq<int>) {
    forall i, j :: 0 <= i < j < |s| ==> s[i] != s[j]
  }

  /** Every comment with an ancestor chain to `id` is a node of the tree built from `id`
      and every node is such a comment; when no two comments share an id, none is listed
      twice, so the tree has one node per descendant. */
  lemma BuildCommentTreeHoldsDescendants(id: int, cs: seq<Comment>, rank: int -> nat)
    requires RankedBy(cs, rank) && DistinctIds(cs)
    ensures forall c :: c in cs ==>
              (c.Id() in FlatForest(BuildCommentTree(id, cs, rank), PostId) <==> Descends(cs, c, id))
    ensures NoDuplicates(FlatForest(BuildCommentTree(id, cs, rank), PostId))
    ensures SumSizes(BuildCommentTree(id, cs, rank)) == |DescendantIds(cs, id)|
  {
    TreeIdsAgree(id, cs, rank);
    ReplyIdsAreDescendants(id, cs, rank);
    ChildrenOfDistinct(cs, id);
    ReplyIdsNoDuplicates(id, cs, rank);
    ReplyIdsSet(id, cs, rank);
    NoDuplicatesCard(ReplyIds(id, cs, rank));
  }

  /** The tree's pre-order listing of ids is the listing read off the parent links. */
  lemma TreeIdsAgree(id: int, cs: seq<Comment>, rank: int -> nat)
    requires RankedBy(cs, rank)
    ensures FlatForest(BuildCommentTree(id, cs, rank), PostId) == ReplyIds(id, cs, rank)
    decreases rank(id), 1, 0
  {
    var tree := BuildCommentTree(id, cs, rank);
    assert tree[0..] == tree;
    assert ChildrenOf(cs, id)[0..] == ChildrenOf(cs, id);
    ForestSuffixAgrees(id, cs, rank, 0);
  }

  lemma {:induction false} ForestSuffixAgrees(id: int, cs: seq<Comment>, rank: int -> nat, j: nat)
    requires RankedBy(cs, rank) && j <= |ChildrenOf(cs, id)|
    ensures j <= |BuildCommentTree(id, cs, rank)|
    ensures FlatForest(BuildCommentTree(id, cs, rank)[j..], PostId) == RepliesIds(ChildrenOf(cs, id)[j..], id, cs, rank)
    decreases rank(id), 0, |ChildrenOf(cs, id)| - j
  {
    var tree := BuildCommentTree(id, cs, rank);
    var kids := ChildrenOf(cs, id);
    if j < |kids| {
      SuffixStep(tree, j);
      SuffixStep(kids, j);
      assert kids[j] in kids;
      TreeIdsAgree(kids[j].Id(), cs, rank);
      ForestSuffixAgrees(id, cs, rank, j + 1);
    }
  }

  /** A member of the listing is a reply's id or lies below one reply. */
  lemma {:induction false} RepliesMember(kids: seq<Comment>, id: int, cs: seq<Comment>, rank: int -> nat, x: int) returns (k: nat)
    requires RankedBy(cs, rank) && forall c :: c in kids ==> c in cs && c.parentId == Some(id)
    requires x in RepliesIds(kids, id, cs, rank)
    ensures k < |kids| && ParseInt(kids[k].objectID).Some?
    ensures x == kids[k].Id() || x in ReplyIds(kids[k].Id(), cs, rank)
    decreases |kids|
  {
    assert kids[0] in kids;
    if x == kids[0].Id() || x in ReplyIds(kids[0].Id(), cs, rank) {
      k := 0;
    } else {
      var k' := RepliesMember(kids[1..], id, cs, rank, x);
      k := k' + 1;
    }
  }

  /** A reply's id and every id below it are in the listing. */
  lemma {:induction false} RepliesInclude(kids: seq<Comment>, id: int, cs: seq<Comment>, rank: int -> nat, k: nat, x: int)
    requires RankedBy(cs, rank) && forall c :: c in kids ==> c in cs && c.parentId == Some(id)
    requires k < |kids| && ParseInt(kids[k].objectID).Some?
    requires x == kids[k].Id() || x in ReplyIds(kids[k].Id(), cs, rank)
    ensures x in RepliesIds(kids, id, cs, rank)
    decreases k
  {
    if k > 0 {
      assert kids[1..][k - 1] == kids[k];
      RepliesInclude(kids[1..], id, cs, rank, k - 1, x);
    }
  }

  /** A reply to `id` is listed below `id`. */
  lemma ReplyIsNode(id: int, cs: seq<Comment>, rank: int -> nat, c: Comment)
    requires RankedBy(cs, rank) && c in cs && c.parentId == Some(id)
    ensures c.Id() in ReplyIds(id, cs, rank)
  {
    var kids := ChildrenOf(cs, id);
    var j :| 0 <= j < |kids| && kids[j] == c;
    RepliesInclude(kids, id, cs, rank, j, c.Id());
  }

  /** The ids below a reply to `id` are listed below `id`. */
  lemma BelowReplyIsListed(id: int, cs: seq<Comment>, rank: int -> nat, c: Comment, x: int)
    requires RankedBy(cs, rank) && c in cs && c.parentId == Some(id) && x in ReplyIds(c.Id(), cs, rank)
    ensures x in ReplyIds(id, cs, rank)
  {
    var kids := ChildrenOf(cs, id);
    var j :| 0 <= j < |kids| && kids[j] == c;
    RepliesInclude(kids, id, cs, rank, j, x);
  }

  /** The last comment of a reply chain from `id` is listed. */
  lemma {:induction false} ChainEndIsNode(id: int, cs: seq<Comment>, rank: int -> nat, chain: seq<Comment>)
    requires RankedBy(cs, rank) && ReplyChain(cs, chain, id)
    ensures chain[|chain| - 1] in cs && chain[|chain| - 1].Id() in ReplyIds(id, cs, rank)
    decreases |chain|
  {
    ChainEndInComments(cs, chain, id);
    if |chain| == 1 {
      ReplyIsNode(id, cs, rank, chain[0]);
    } else {
      var rest := chain[1..];
      ChainEndIsNode(chain[0].Id(), cs, rank, rest);
      assert rest[|rest| - 1] == chain[|chain| - 1];
      BelowReplyIsListed(id, cs, rank, chain[0], chain[|chain| - 1].Id());
    }
  }

  /** Every listed id ends a reply chain from `id`. */
  lemma {:induction false} NodeHasChain(id: int, cs: seq<Comment>, rank: int -> nat, x: int) returns (chain: seq<Comment>)
    requires RankedBy(cs, rank) && x in ReplyIds(id, cs, rank)
    ensures ReplyChain(cs, chain, id) && ParseInt(chain[|chain| - 1].objectID) == Some(x)
    decreases rank(id)
  {
    var kids := ChildrenOf(cs, id);
    var k := RepliesMember(kids, id, cs, rank, x);
    var kid := kids[k];
    assert kid in kids;
    if x == kid.Id() {
      chain := [kid];
    } else {
      var rest := NodeHasChain(kid.Id(), cs, rank, x);
      chain := [kid] + rest;
      ExtendChain(cs, kid, rest, id);
    }
  }

  /** A reply to `id` followed by a reply chain from it is a reply chain from `id`. */
  lemma ExtendChain(cs: seq<Comment>, kid: Comment, rest: seq<Comment>, id: int)
    requires kid in cs && kid.parentId == Some(id) && ParseInt(kid.objectID).Some?
    requires ReplyChain(cs, rest, kid.Id())
    ensures ReplyChain(cs, [kid] + rest, id) && ([kid] + rest)[|rest|] == rest[|rest| - 1]
  {
    assert ([kid] + rest)[1..] == rest;
  }

  /** Every listed id stands for a comment that replies to `id` or to another listed id,
      and ranks below `id`. */
  lemma {:induction false} NodeParent(id: int, cs: seq<Comment>, rank: int -> nat, x: int) returns (c: Comment)
    requires RankedBy(cs, rank) && x in ReplyIds(id, cs, rank)
    ensures c in cs && ParseInt(c.objectID) == Some(x) && c.parentId.Some?
    ensures c.parentId.value == id || c.parentId.value in ReplyIds(id, cs, rank)
    ensures rank(x) < rank(id)
    decreases rank(id)
  {
    var kids := ChildrenOf(cs, id);
    var k := RepliesMember(kids, id, cs, rank, x);
    var kid := kids[k];
    assert kid in kids;
    if x == kid.Id() {
      c := kid;
    } else {
      c := NodeParent(kid.Id(), cs, rank, x);
      RepliesInclude(kids, id, cs, rank, k, kid.Id());
      RepliesInclude(kids, id, cs, rank, k, c.parentId.value);
    }
  }

  /** With distinct ids, a comment is known by its id. */
  lemma SameIdSameComment(cs: seq<Comment>, c: Comment, d: Comment)
    requires DistinctIds(cs) && c in cs && d in cs && ParseInt(c.objectID) == ParseInt(d.objectID)
    ensures c == d
  {
    var i :| 0 <= i < |cs| && cs[i] == c;
    var j :| 0 <= j < |cs| && cs[j] == d;
  }

  /** The subtrees of two replies to `id` share an id only when they are the same reply:
      the shared id's parent is shared too, one level up, until one of them is reached. */
  lemma {:induction false} SiblingTreesDisjoint(id: int, cs: seq<Comment>, rank: int -> nat, ca: Comment, cb: Comment, x: int)
    requires RankedBy(cs, rank) && DistinctIds(cs)
    requires ca in cs && cb in cs && ca.parentId == Some(id) && cb.parentId == Some(id)
    requires x == ca.Id() || x in ReplyIds(ca.Id(), cs, rank)
    requires x == cb.Id() || x in ReplyIds(cb.Id(), cs, rank)
    ensures ca == cb
    decreases rank(ca.Id()) - rank(x)
  {
    var a, b := ca.Id(), cb.Id();
    if x == a && x == b {
      SameIdSameComment(cs, ca, cb);
    } else if x == a {
      var c := NodeParent(b, cs, rank, a);
      SameIdSameComment(cs, c, ca);
      if id != b {
        var d := NodeParent(b, cs, rank, id);
      }
      assert false;
    } else if x == b {
      var c := NodeParent(a, cs, rank, b);
      SameIdSameComment(cs, c, cb);
      if id != a {
        var d := NodeParent(a, cs, rank, id);
      }
      assert false;
    } else {
      var c := NodeParent(a, cs, rank, x);
      var d := NodeParent(b, cs, rank, x);
      SameIdSameComment(cs, c, d);
      var p := c.parentId.value;
      if p != a {
        var e := NodeParent(a, cs, rank, p);
      }
      SiblingTreesDisjoint(id, cs, rank, ca, cb, p);
    }
  }

  /** Dropping the first comment keeps the ids distinct. */
  lemma DistinctIdsTail(cs: seq<Comment>)
    requires |cs| > 0 && DistinctIds(cs)
    ensures DistinctIds(cs[1..])
  {
    var tail := cs[1..];
    forall i, j | 0 <= i < |tail| && 0 <= j < |tail| && i != j
      ensures ParseInt(tail[i].objectID) != ParseInt(tail[j].objectID)
    {
      assert tail[i] == cs[i + 1] && tail[j] == cs[j + 1];
    }
  }

  /** The replies to `id` inherit distinct ids. */
  lemma {:induction false} ChildrenOfDistinct(cs: seq<Comment>, id: int)
    requires DistinctIds(cs)
    ensures DistinctIds(ChildrenOf(cs, id))
    decreases |cs|
  {
    if |cs| > 0 {
      var tail := cs[1..];
      DistinctIdsTail(cs);
      ChildrenOfDistinct(tail, id);
      if cs[0].parentId == Some(id) {
        var r := ChildrenOf(cs, id);
        var rest := ChildrenOf(tail, id);
        assert r == [cs[0]] + rest;
        forall j | 0 < j < |r| ensures ParseInt(r[0].objectID) != ParseInt(r[j].objectID) {
          assert r[j] == rest[j - 1];
          assert rest[j - 1] in rest;
          var m :| 0 <= m < |tail| && tail[m] == r[j];
          assert cs[m + 1] == r[j];
        }
      }
    }
  }

  /** One step of the walk along a suffix. */
  lemma SuffixStep<T>(s: seq<T>, j: nat)
    requires j < |s|
    ensures |s[j..]| > 0 && s[j..][0] == s[j] && s[j..][1..] == s[j + 1..]
  {
  }

  lemma NoDuplicatesAppend(a: seq<int>, b: seq<int>)
    requires NoDuplicates(a) && NoDuplicates(b) && forall x :: x in a ==> x !in b
    ensures NoDuplicates(a + b)
  {
    forall i, j | 0 <= i < j < |a + b| ensures (a + b)[i] != (a + b)[j] {
      if j < |a| {
        assert (a + b)[i] == a[i] && (a + b)[j] == a[j];
      } else if i >= |a| {
        assert (a + b)[i] == b[i - |a|] && (a + b)[j] == b[j - |a|];
      } else {
        assert (a + b)[i] == a[i] && (a + b)[j] == b[j - |a|];
        assert a[i] in a && b[j - |a|] in b;
      }
    }
  }

  /** No id is listed twice below `id`. */
  lemma ReplyIdsNoDuplicates(id: int, cs: seq<Comment>, rank: int -> nat)
    requires RankedBy(cs, rank) && DistinctIds(cs)
    ensures NoDuplicates(ReplyIds(id, cs, rank))
    decreases rank(id), 1, 0
  {
    ChildrenOfDistinct(cs, id);
    RepliesNoDuplicates(ChildrenOf(cs, id), id, cs, rank);
  }

  lemma {:induction false} RepliesNoDuplicates(kids: seq<Comment>, id: int, cs: seq<Comment>, rank: int -> nat)
    requires RankedBy(cs, rank) && DistinctIds(cs) && DistinctIds(kids)
    requires forall c :: c in kids ==> c in cs && c.parentId == Some(id)
    ensures NoDuplicates(RepliesIds(kids, id, cs, rank))
    decreases rank(id), 0, |kids|
  {
    if kids != [] {
      var kid := kids[0];
      assert kid in kids;
      var below := ReplyIds(kid.Id(), cs, rank);
      ReplyIdsNoDuplicates(kid.Id(), cs, rank);
      if kid.Id() in below {
        var c := NodeParent(kid.Id(), cs, rank, kid.Id());
        assert false;
      }
      NoDuplicatesAppend([kid.Id()], below);
      DistinctIdsTail(kids);
      RepliesNoDuplicates(kids[1..], id, cs, rank);
      var later := RepliesIds(kids[1..], id, cs, rank);
      forall x | x in [kid.Id()] + below ensures x !in later {
        if x in later {
          var m := RepliesMember(kids[1..], id, cs, rank, x);
          assert kids[1..][m] == kids[m + 1];
          assert kids[m + 1] in kids;
          SiblingTreesDisjoint(id, cs, rank, kid, kids[m + 1], x);
          assert false;
        }
      }
      NoDuplicatesAppend([kid.Id()] + below, later);
    }
  }

  /** Every comment has its id listed exactly when it descends from `id`. */
  lemma ReplyIdsAreDescendants(id: int, cs: seq<Comment>, rank: int -> nat)
    requires RankedBy(cs, rank) && DistinctIds(cs)
    ensures forall c :: c in cs ==> (c.Id() in ReplyIds(id, cs, rank) <==> Descends(cs, c, id))
  {
    forall c | c in cs ensures c.Id() in ReplyIds(id, cs, rank) <==> Descends(cs, c, id) {
      if c.Id() in ReplyIds(id, cs, rank) {
        ListedDescends(id, cs, rank, c);
      }
      if Descends(cs, c, id) {
        DescendantListed(id, cs, rank, c);
      }
    }
  }

  lemma ListedDescends(id: int, cs: seq<Comment>, rank: int -> nat, c: Comment)
    requires RankedBy(cs, rank) && DistinctIds(cs) && c in cs && c.Id() in ReplyIds(id, cs, rank)
    ensures Descends(cs, c, id)
  {
    var chain := NodeHasChain(id, cs, rank, c.Id());
    ChainEndInComments(cs, chain, id);
    SameIdSameComment(cs, chain[|chain| - 1], c);
    assert ReplyChain(cs, chain, id) && chain[|chain| - 1] == c;
  }

  lemma DescendantListed(id: int, cs: seq<Comment>, rank: int -> nat, c: Comment)
    requires RankedBy(cs, rank) && c in cs && Descends(cs, c, id)
    ensures c.Id() in ReplyIds(id, cs, rank)
  {
    var chain :| ReplyChain(cs, chain, id) && chain[|chain| - 1] == c;
    ChainEndIsNode(id, cs, rank, chain);
  }

  /** The listed ids are the descendants' ids. */
  lemma ReplyIdsSet(id: int, cs: seq<Comment>, rank: int -> nat)
    requires RankedBy(cs, rank) && DistinctIds(cs)
    ensures (set x | x in ReplyIds(id, cs, rank)) == DescendantIds(cs, id)
  {
    var t := ReplyIds(id, cs, rank);
    ReplyIdsAreDescendants(id, cs, rank);
    forall x | x in t ensures x in DescendantIds(cs, id) {
      var c := NodeParent(id, cs, rank, x);
      assert c.Id() == x;
    }
    forall x | x in DescendantIds(cs, id) ensures x in t {
      var c :| c in cs && ParseInt(c.objectID).Some? && Descends(cs, c, id) && c.Id() == x;
    }
  }

  /** A list without repeats has as many members as elements. */
  lemma {:induction false} NoDuplicatesCard(s: seq<int>)
    requires NoDuplicates(s)
    ensures |set x | x in s| == |s|
  {
    if |s| > 0 {
      var tail := s[1..];
      assert NoDuplicates(tail) by {
        forall i, j | 0 <= i < j < |tail| ensures tail[i] != tail[j] {
          assert tail[i] == s[i + 1] && tail[j] == s[j + 1];
        }
      }
      NoDuplicatesCard(tail);
      assert s[0] !in tail by {
        forall i | 0 <= i < |tail| ensures tail[i] != s[0] {
          assert tail[i] == s[i + 1];
        }
      }
      assert (set x | x in s) == {s[0]} + (set x | x in tail) by {
        assert s == [s[0]] + tail;
      }
    }
  }
}
